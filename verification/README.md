# A verified model of QDAP's erasure code, broker and session machinery

This project models the parts of QDAP whose behaviour is hardest to see from the code, and proves what they do for
every input and every run. `dafny verify dfyconfig.toml` checks all of it.

**Forward error correction** (`bytes`, `fec`, `fec_layout`, `fec_recovery`, `binomial`, `binomial_range`, `fec_loss`,
`fec_exact_loss`, `fec_more_parity`, `fec_native_loss`, `fec_native_exact`, `fec_native_parity`, `fec_native_wrap`,
`fec_fallback`). The encoder cuts data into k zero-padded chunks and XORs them into r stripes; the decoder rebuilds
from whatever arrived. The loops work on byte buffers in place and are proved equal to `Fec.Encode` and `Fec.Decode`,
for both implementations; about those it is proved exactly which loss patterns the decoder survives, for all data, k, r
and patterns. The decoder's true failure probability, summed over all loss patterns, is given in closed form as a
product over the stripes; one more parity packet never raises it. The published formula is compared with it twice: as
the exact sum the second implementation forms, and as the native code forms it, with 64-bit coefficients that wrap and
32-bit exponents. The native one is right, for 0 < p < 1 and below 2^32 packets, exactly when r = 0, or fewer than
2^31 packets are sent and k = 1, or r = 1 and k <= 66.

**MQTT broker** (`packet_parser`, `packet_reading`, `framing`, `topics`, `topic_standard`, `topic_tree`,
`session_store`, `broker_state`, `broker`, `broker_sessions`, `broker_laws`, `broker_streams`, `broker_outputs`,
`broker_inputs`, `server`). The mutable topic tree refines a flat table of subscriptions, and the table is what the
history of operations says; where its matching leaves MQTT 5.0 is said exactly. The packet codec round-trips, and the
reading loop does not care how the stream is cut into reads. Each packet handler takes exactly one step of a state
machine over values, and any reads of any connections, interleaved and cut arbitrarily, take the broker through the run
of the packets they hold. What each type of packet does is said of tables, sessions and bytes alone. About the machine
it is proved, for every run, who receives a publication, what bytes they receive, what a closed connection leaves
behind, and that the bytes on any connection are read back as exactly the packets its events wrote, in order.

**In-flight window** (`ghost_window`, `ghost_window_runs`): conservation, bounds and sample laws over every run, and
exactly when an acknowledgement panics.

**Chunks and reassembly** (`chunker`, `reassembler`, `reassembler_runs`): a payload comes back from any order,
repetition and interleaving of its chunks, on exactly the right arrival.

**Adaptive session** (`adaptive_session`, `adaptive_session_runs`): flow laws of the four-phase machine, and the exact
geometric laws of its running estimates.

**Delta frames** (`delta`) and **line of sight** (`channel`): round trips and exactness, each with its exact condition.

`wrappers`, `sequences` and `arithmetic` hold the shared result types, and facts about sequences and products.

State that the source updates in place is a class here, with methods that modify it; each is proved against a function
or relation on values, and the laws are lemmas about those. Code that only computes is a function. Loops of the source
are loops here.

## Where the code and its documentation disagree

The model follows the code.

- `qdap_core/src/fec.rs:9` says any 2 of 4 packets are enough. They are not: see `FecRecovery.TwoOfFourIsNotEnough`.
  Any k of k + r packets are enough exactly when k = 1 or r <= 1: `FecLoss.SurvivesAnyRIff`. In every other
  configuration exactly one loss, wherever it falls, is survived: `FecLoss.ToleranceExactly`.
- `qdap_core/src/fec.rs:211-212` calls the loss formula exact. The native code sums coefficients that wrap at 64 bits:
  it is exact in the configurations `FecNativeExact.NativeIsExactIff` and `FecNativeExact.NativeIsExactAt` name, and
  for 0 < p < 1 too small in all others below 2^31 packets; k = 67, r = 1 is the first failure with r = 1. From 2^31
  to below 2^32 packets the casts of the exponents turn negative and its result is above 1:
  `FecNativeExact.NativeInUnitIff`. The exact sum of `src/qdap/_rust_bridge.py:324-337` is the
  decoder's failure probability exactly when k = 1, r <= 1, or p is 0 or 1: `FecLoss.FormulaIsExactIff`,
  `FecExactLoss.FormulaIsExactAt`. `FecExactLoss.FailureClosedForm` says what the loss is instead. Of the selectable
  profiles only BALANCED is affected: `FecNativeExact.SelectedProfileNative`, `FecExactLoss.BalancedFailure`.
- The two implementations of the formula give different numbers wherever a coefficient does not fit in 64 bits:
  `FecNativeExact.ImplementationsAgreeIff`.
- Adding a parity packet can raise the formula's value: from r = 0 to r = 1 with k >= 2 and a high loss rate, as
  `FecLoss.FirstParityHelpsIff`, `FecLoss.FirstParityForTwo` and, for the native code,
  `FecNativeParity.FirstParityHelpsNativeIff` say exactly. After the first packet neither the exact sum nor the true
  loss ever rises (`FecLoss.MoreParityHelps`, `FecMoreParity.FailureNeverRises`), but the native value does: for every
  k from 5 up to 2147483622, at a loss rate of 7/8 and 2147483623 packets. It never rises, for any r and p, exactly
  when k <= 4: `FecNativeWrap.MoreParityHelpsNativeIff`. While the coefficients fit it never does for any k:
  `FecNativeParity.MoreParityHelpsNative`.
- Section 4.7.1.2 of MQTT 5.0 lets `#` match the parent level. `src/qdap/broker/topic_tree.py:49-52` returns before it
  looks for a `#` child, so `a/#` misses `a`. `TopicStandard.DiffersAtParentExactly` says for all filters and topics
  where the two relations differ, `TopicStandard.MissedClientsExactly` which clients a match leaves out for it, and
  `TopicStandard.MatchIsStandardIff` when the match is what the standard asks for.
- Section 4.7.2 keeps leading wildcards from topics that start with `$`. The code has no such rule: `#` matches `$a`,
  `TopicStandard.ShieldedIsMatched`. `TopicStandard.DiffersFromBothExactly` says for all filters and topics where the
  code differs from both sections, `TopicStandard.WrongClientsExactly` which clients a match wrongly lists,
  `TopicStandard.LostClientsExactly` which it leaves out, and `TopicStandard.MatchMeetsBothIff` when it is right.
- The property length of CONNECT is a variable byte integer, sections 3.1.2.11 and 1.5.5 of MQTT 5.0;
  `src/qdap/broker/packet_parser.py:91-92` reads one byte. CONNECT packets with n property bytes are all read back
  exactly when n < 128: `PacketReading.ConnectReadExactly`, with an input for every larger n in
  `PacketReading.LongPropertiesLoseId`.
- Section 3.2.2.1.1 of MQTT 5.0 has CONNACK say whether a session was present. `src/qdap/broker/broker.py:84-85` works it
  out and sends "no" always, also for a session that is kept: `BrokerLaws.ConnectPacketJoins`.
- `qdap_core/src/delta.rs:115-116` calls expansion the inverse of the mask computation. `Delta.RecomputeExactly` gives
  the exact condition, `Delta.RecomputeFails` two masks that do not come back.
- A window of size below 3 holds 3 packets, since a quarter of 3 rounds to none: `GhostWindowRuns.SmallWindowsOverflow`.
- With `rtt_max_samples` 0 every acknowledgement of a pending packet panics (`remove(0)` of an empty vector):
  `GhostWindowRuns.PanicsExactly`, and the shortest such run in `GhostWindowRuns.FirstAckPanics`.
- The segment test of `simulations/v2x/channel.py` is not symmetric for a segment tilted by less than 1e-9 along an
  axis: `Channel.MutualIffClean`.

## Model

| member | source | states |
|---|---|---|
| Bytes.XorByteSwap | qdap_core/src/fec.rs:92-100 | operands of an XOR of bytes may be swapped, so a parity does not depend on the order of its chunks |
| Bytes.XorByteUndo | qdap_core/src/fec.rs:184-195 | XORing the known packets into the parity leaves the missing one |
| Bytes.XorBits | qdap_core/src/fec.rs:92-100 | XOR is taken bit by bit: a bit is set exactly when it is set in one of the two |
| Fec.BuildChunk | qdap_core/src/fec.rs:79-89 | the buffer is the data from i * size on, cut at the end and padded with zeros |
| Fec.XorParities | qdap_core/src/fec.rs:92-100 | the in-place double loop gives, at every position of stripe j, the XOR of the chunks with i % r = j |
| Fec.XorPacket | qdap_core/src/fec.rs:190-192 | the inner loop XORs one known packet into the accumulator, as far as both reach |
| Fec.FecEncode | qdap_core/src/fec.rs:56-111 | k = 0 is an error; otherwise the packets are the data alone, copies, or k chunks and r parities |
| Fec.CountMissing | qdap_core/src/fec.rs:151-152 | the count of lost packets |
| Fec.XorStripe | qdap_core/src/fec.rs:184-195 | the accumulator ends as the parity XORed with every known packet of the stripe, position by position |
| Fec.OneSettled | qdap_core/src/fec.rs:176-196 | filling in the sole missing packet settles that stripe and touches no other |
| Fec.RecoverStripe | qdap_core/src/fec.rs:171-196 | one arrived parity packet settles its stripe, whatever is missing there |
| Fec.RecoverStripes | qdap_core/src/fec.rs:168-196 | after the loop each data packet is itself, its stripe's XOR, or still missing, as the original losses alone decide |
| Fec.Reassemble | qdap_core/src/fec.rs:200-206 | received packets joined in order and cut to the original length |
| Fec.FecDecode | qdap_core/src/fec.rs:123-207 | the decoder's answer on any packet list whatever, also too short or too long |
| FecFallback.Encode | src/qdap/_rust_bridge.py:366-388 | the second encoder sends the same packets, and fails for every k <= 0 |
| FecFallback.XorInto | src/qdap/_rust_bridge.py:429-431 | one packet XORed into a bytearray, as far as both reach |
| FecFallback.ParityRows | src/qdap/_rust_bridge.py:383-387 | the list of bytearrays ends as the parities |
| FecFallback.XorTogether | src/qdap/_rust_bridge.py:422-432 | the accumulator ends as the parity XORed with every known packet of the stripe |
| FecFallback.ListMissing | src/qdap/_rust_bridge.py:420 | the missing indices of a stripe, with every index in range |
| FecFallback.CountNone | src/qdap/_rust_bridge.py:407-408 | the count of lost packets |
| FecFallback.JoinReceived | src/qdap/_rust_bridge.py:434-436 | the packets joined and sliced to the original length |
| FecFallback.RecoverStripe | src/qdap/_rust_bridge.py:415-432 | one arrived parity settles its stripe; no index is out of range |
| FecFallback.Decode | src/qdap/_rust_bridge.py:391-436 | the second decoder gives the same answer on any packet list |
| FecLayout.PacketsExactly | qdap_core/src/fec.rs:56-111 | what both encoders send, byte by byte: the data alone, r + 1 copies, or packets of the least length L with k L >= length of the data, packet i its bytes from i L on padded with zeros, and packet k + j the XOR of stripe j |
| FecRecovery.RecoverableLosesAtMostR | qdap_core/src/fec.rs:151-152 | the early cut on more than r losses rejects no recoverable pattern |
| FecRecovery.ParityIsKnownXorMissing | qdap_core/src/fec.rs:92-100 | a stripe's parity is its known packets XORed with the missing chunk |
| FecRecovery.JoinChunks | qdap_core/src/fec.rs:79-89 | the chunks joined are the data followed by zeros |
| FecRecovery.RecoveryExact | qdap_core/src/fec.rs:56-207 | for all data, k >= 2, r >= 1 and loss patterns: the data comes back if every stripe lost no data packet, or one and not its parity; otherwise nothing does |
| FecRecovery.CopiesExact | qdap_core/src/fec.rs:66-73 | with k = 1 the data comes back exactly when some packet arrives |
| FecRecovery.UnprotectedExact | qdap_core/src/fec.rs:61-64 | with r = 0 the data comes back exactly when the one packet arrives |
| FecRecovery.TwoOfFourIsNotEnough | qdap_core/src/fec.rs:9 | losing data packet 0 and parity packet 0 of (2, 2) loses the data |
| Binomial.ChooseStep | qdap_core/src/fec.rs:232-234 | C(n, i) (n - i) = C(n, i + 1) (i + 1), the step the loop takes |
| Binomial.BinomStepExact | qdap_core/src/fec.rs:232-234 | dividing before multiplying loses nothing |
| Binomial.BinomStepFits | qdap_core/src/fec.rs:231-235 | when C(n, k) fits in 64 bits, no product or sum on the way exceeds 64 bits |
| Binomial.Binom | qdap_core/src/fec.rs:227-237 | the loop, wrapping at 64 bits, computes `Binom64(n, k)`, of which `Binom64Exact` says when it is C(n, k) |
| Binomial.Binom64Exact | qdap_core/src/fec.rs:225-237 | for all n and k below 2^64 the loop's value is C(n, k) exactly when C(n, k) fits in 64 bits |
| BinomialRange.FitsExactly | qdap_core/src/fec.rs:225-237 | for every start i <= 34, all coefficients of row n from i on fit exactly when n <= 67 |
| FecLoss.TailIsAtLeast | src/qdap/_rust_bridge.py:324-337 | the binomial tail is the summed weight of all loss patterns with at least i losses |
| FecLoss.EffectiveLossInUnit | src/qdap/_rust_bridge.py:324-337 | the exact sum lies in [0, 1] for every p, k and r |
| FecLoss.MoreParityHelps | src/qdap/_rust_bridge.py:324-337 | one more parity packet never raises the exact sum, for r >= 1 or k = 1 |
| FecLoss.FirstParityForTwo | src/qdap/_rust_bridge.py:324-337 | with k = 2 the first parity packet lowers it exactly up to p = 1/2, or at p = 1 |
| FecLoss.FirstParityHelpsIff | src/qdap/_rust_bridge.py:324-337 | the first parity packet lowers the exact sum at every loss rate exactly when k = 1 |
| FecLoss.FormulaIsLowerBound | src/qdap/_rust_bridge.py:324-337 | at any loss rate and any r the exact sum never exceeds the decoder's failure probability |
| FecLoss.SurvivesAnyRIff | qdap_core/src/fec.rs:9 | every pattern with at most r losses gives the data back exactly when k = 1 or r <= 1 |
| FecLoss.ToleranceExactly | qdap_core/src/fec.rs:56-207 | for all data, k, r and m: any m losses are survived exactly for m <= r when k = 1 or r <= 1, and for m <= 1 otherwise |
| FecLoss.ProfileTolerance | qdap_core/src/fec.rs:5-11 | the packets each profile sends and how many, any of them, may be lost; for BALANCED one of four, where the comment says two |
| FecLoss.SelectedExactly | qdap_core/src/fec.rs:245-262 | which (k, r) is selected at every loss rate and overhead; an emergency's packets stay within the overhead if it allows two for one |
| FecLoss.FormulaIsExactIff | src/qdap/_rust_bridge.py:324-337 | for 0 < p < 1 the exact sum equals that probability exactly when k = 1 or r <= 1 |
| FecExactLoss.RecoverableMass | qdap_core/src/fec.rs:123-207 | the recoverable patterns that extend any prefix weigh the prefix times the chances of its stripes |
| FecExactLoss.FailureClosedForm | qdap_core/src/fec.rs:123-207 | for k >= 2, r >= 1 the decoder fails with probability 1 minus the product over stripes of (1 - p)^n (1 + n p), n the stripe's data packets |
| FecExactLoss.BalancedFailure | qdap_core/src/fec.rs:123-207 | the BALANCED profile fails with probability 2 p^2 - p^4 |
| FecExactLoss.FormulaIsExactAt | src/qdap/_rust_bridge.py:324-337 | for every p the code accepts, the exact sum is the decoder's failure probability exactly when k = 1, r <= 1, p <= 0 or p >= 1 |
| FecLoss.SelectedProfileExact | src/qdap/_rust_bridge.py:324-362 | of the profiles selected, the exact sum is right exactly for emergencies and for loss rates below 20% |
| FecMoreParity.StripeSize | qdap_core/src/fec.rs:92-100 | the stripes are balanced: the first n % r hold one packet more than the others |
| FecMoreParity.MoreStripesSurvive | qdap_core/src/fec.rs:123-207 | spreading the data over one stripe more makes its survival no less likely |
| FecMoreParity.FailureNeverRises | qdap_core/src/fec.rs:123-207 | after the first, one more parity packet never raises the decoder's true failure probability, for all data, k, r and p |
| FecMoreParity.FirstParityNeverHurtsIff | qdap_core/src/fec.rs:123-207 | the first never raises it, at any p, exactly when k = 1 |
| FecNativeLoss.FecEffectiveLoss | qdap_core/src/fec.rs:215-237 | the native loop over `Binom`, with 64-bit sums and 32-bit exponents, computes `NativeLoss`, which the rows below tie to the decoder |
| FecNativeLoss.FallbackEffectiveLoss | src/qdap/_rust_bridge.py:324-337 | the loop of the second implementation computes `EffectiveLoss`, which `FecLoss.TailIsAtLeast` gives its meaning |
| FecNativeLoss.TailBelow | qdap_core/src/fec.rs:220-222 | for 0 < p < 1 the wrapped sum is the exact one when every coefficient fits, and strictly smaller otherwise |
| FecNativeExact.NativeIsLowerBound | qdap_core/src/fec.rs:211-223 | below 2^31 packets the native value is finite, in [0, 1], and never above the exact sum or the decoder's failure probability |
| FecNativeExact.NativeIsExactAt | qdap_core/src/fec.rs:211-223 | for every p, below 2^31 packets: it is that probability exactly when p <= 0, p >= 1, r = 0, k = 1, or r = 1 and k <= 66 |
| FecNativeExact.NativeIsExactIff | qdap_core/src/fec.rs:211-223 | for 0 < p < 1, below 2^32 packets, or k = 1 and any r: exactly when r = 0, or fewer than 2^31 packets are sent and, besides, k = 1, or r = 1 and k <= 66 |
| FecNativeExact.NativeInUnitIff | qdap_core/src/fec.rs:220-222 | for 0 < p < 1 and r >= 1 the native value is a probability exactly below 2^31 packets, where the cast of the exponent holds |
| FecNativeExact.ImplementationsAgreeIff | src/qdap/_rust_bridge.py:324-337 | the native value and the exact sum are equal, for 0 < p < 1, exactly when r = 0, or exponents and all coefficients fit |
| FecNativeExact.SelectedProfileNative | qdap_core/src/fec.rs:245-262 | of the profiles selected, the native formula is right exactly for emergencies and for loss rates below 20% |
| FecNativeParity.MoreParityHelpsNative | qdap_core/src/fec.rs:215-223 | when every coefficient fits, one more parity packet never raises the native value |
| FecNativeParity.FirstParityHelpsNativeIff | qdap_core/src/fec.rs:215-223 | the first parity packet lowers the native value at every loss rate exactly when k = 1 |
| FecNativeWrap.ThirdWraps | qdap_core/src/fec.rs:227-237 | for rows below 2^31 the loop gives C(n, 3) modulo 2^64: nothing is lost but the high bits |
| FecNativeWrap.FiveAreHurt | qdap_core/src/fec.rs:215-223 | the failing input for every k >= 5: at p = 7/8, with 2147483623 packets, one more parity packet raises the native value |
| FecNativeWrap.MoreParityHelpsNativeIff | qdap_core/src/fec.rs:215-223 | for all r >= 1 and p: one more parity packet never raises the native value exactly when k <= 4 |
| PacketParser.EncodeRemainingLength | src/qdap/broker/packet_parser.py:48-58 | the loop gives the variable byte integer of section 1.5.5 of MQTT 5.0 |
| PacketParser.DecodeRemainingLength | src/qdap/broker/packet_parser.py:35-46 | the loop reads such an integer, with IndexError as None |
| PacketParser.LengthRoundTrip | src/qdap/broker/packet_parser.py:35-58 | decoding inverts encoding for every number, anywhere in any bytes |
| PacketParser.LengthPrefixFree | src/qdap/broker/packet_parser.py:48-58 | no encoding is a proper prefix of another |
| PacketParser.LengthMinimal | src/qdap/broker/packet_parser.py:35-58 | no bytes that decode to a number are shorter than its encoding |
| PacketParser.LengthInFourBytes | src/qdap/broker/packet_parser.py:48-58 | four bytes are enough exactly up to 268 435 455 |
| PacketParser.StringRoundTrip | src/qdap/broker/packet_parser.py:60-67 | a string below 65536 bytes is read back, anywhere in any bytes |
| PacketReading.HighByteFirst | src/qdap/broker/packet_parser.py:60-67 | 16-bit integers stand with the high byte first, section 1.5.2 of MQTT 5.0 |
| PacketReading.LowGroupFirst | src/qdap/broker/packet_parser.py:48-58 | the integer stands in groups of seven bits, the lowest first, with the top bit on all bytes but the last |
| PacketParser.ReadFilters | src/qdap/broker/packet_parser.py:116-131 | the loops over topic filters compute `ParseFilters`, whose meaning the next rows state |
| PacketReading.FiltersReadBack | src/qdap/broker/packet_parser.py:116-131 | filters written one after another are read back, with the QoS in their options, wherever they stand |
| PacketReading.SubscriptionsRoundTrip | src/qdap/broker/packet_parser.py:110-131 | a SUBSCRIBE or UNSUBSCRIBE as the standard writes it, with any properties and any filters, gives back its id and every pair, whatever follows |
| PacketReading.StandardPublishRoundTrip | src/qdap/broker/packet_parser.py:96-108 | a PUBLISH of sections 3.3.1 to 3.3.3 with any properties gives back topic, payload, QoS, id and retain flag, whatever follows |
| PacketReading.BuiltIsStandard | src/qdap/broker/packet_parser.py:151-159 | the broker's own PUBLISH is the standard's packet with no properties and DUP unset |
| PacketReading.OtherPacketsPass | src/qdap/broker/packet_parser.py:69-133 | packets of every other type are taken with their type and flags, and nothing in any other field |
| PacketReading.ConnackCarries | src/qdap/broker/packet_parser.py:135-137 | CONNACK carries the session flag and the reason, and no properties |
| PacketParser.ParsePacket | src/qdap/broker/packet_parser.py:69-133 | the branches compute `Parse`, with each exception as Raised and short data as TooShort; the round trips say what it reads |
| PacketReading.ConnectReadExactly | src/qdap/broker/packet_parser.py:80-94 | version 5: all CONNECT packets with n property bytes give back id, keep-alive and clean flag exactly when n < 128 |
| PacketReading.LongPropertiesLoseId | src/qdap/broker/packet_parser.py:90-93 | for every n from 128 on, n zero bytes of properties make the parser read an empty client id |
| PacketReading.OlderConnectRoundTrip | src/qdap/broker/packet_parser.py:80-94 | a CONNECT of any other version is always read back |
| PacketParser.FramedRoundTrip | src/qdap/broker/packet_parser.py:135-159 | a framed body is found again, whatever follows |
| PacketParser.PublishRecovered | src/qdap/broker/packet_parser.py:96-108 | a built PUBLISH followed by any bytes parses back to every field |
| PacketParser.PublishRoundTrip | src/qdap/broker/packet_parser.py:151-159 | it does so exactly when an id is given exactly for QoS above 0 |
| PacketParser.PubackRoundTrip | src/qdap/broker/packet_parser.py:147-149 | a built PUBACK parses as one and carries its id |
| Framing.FrameLocal | src/qdap/broker/broker.py:46-61 | bytes that arrive later do not change a complete frame |
| Framing.CutAppend | src/qdap/broker/broker.py:43-61 | cutting the leftover together with new bytes is cutting everything at once |
| Framing.CutAccounts | src/qdap/broker/broker.py:46-61 | frames and leftover are the input, every frame is whole, and no whole frame is left over |
| Framing.DeliverParses | src/qdap/broker/broker.py:57-64 | the i-th packet handed over is the i-th frame parsed, with none skipped while the connection is open |
| Framing.FeedTwice | src/qdap/broker/broker.py:39-64 | two reads are one read of the joined bytes |
| Framing.FramingIndependent | src/qdap/broker/broker.py:36-64 | however the stream is cut into reads, the same packets in the same order, the same end, the same leftover |
| Framing.NextFrame | src/qdap/broker/broker.py:48-55 | finds the next frame, and needs at least two bytes for it, so the loop ends |
| Framing.DrainBuffer | src/qdap/broker/broker.py:46-64 | the inner loop hands over exactly the complete frames of the buffer |
| Framing.HandleReads | src/qdap/broker/broker.py:36-68 | the whole reading loop is one pass over everything read before the end of the stream |
| Topics.JoinSplit | src/qdap/broker/topic_tree.py:17 | the levels joined by slashes are the filter |
| Topics.LevelsHaveNoSlash | src/qdap/broker/topic_tree.py:15-27 | no level holds a slash, so the filter is cut at every one |
| Topics.SplitInjective | src/qdap/broker/topic_tree.py:17 | different filters have different levels |
| Topics.MatchIsDetermined | src/qdap/broker/topic_tree.py:39-45 | the table and topic determine a match up to its order |
| TopicStandard.ParentLevelIsMissed | src/qdap/broker/topic_tree.py:49-52 | `a/#` matches `a` by section 4.7.1 and not in the code |
| TopicStandard.DiffersAtParentExactly | src/qdap/broker/topic_tree.py:47-68 | for all filters and topics the code differs from section 4.7.1 exactly when the topic is the parent level of a final `#`, and then it does not match |
| TopicStandard.MissedClientsExactly | src/qdap/broker/topic_tree.py:39-45 | a match leaves out exactly the clients reached only through such a parent level |
| TopicStandard.MatchIsStandardIff | src/qdap/broker/topic_tree.py:39-45 | a match is what section 4.7.1 asks for, clients and QoS, exactly when each parent-level filter is made up for by a matching one of the same client |
| TopicStandard.DiffersFromBothExactly | src/qdap/broker/topic_tree.py:47-68 | for all filters and topics the code differs from sections 4.7.1 and 4.7.2 together exactly where 4.7.1 matches and the filter is either shielded by 4.7.2 or at the parent level, but not both |
| TopicStandard.ShieldedIsMatched | src/qdap/broker/topic_tree.py:47-68 | `#` matches `$a` in the code, and not by section 4.7.2 |
| TopicStandard.WrongClientsExactly | src/qdap/broker/topic_tree.py:39-45 | a match lists a client that the two sections together do not reach exactly when some filter of it matches by 4.7.1 other than at the parent level, and every one that does match by 4.7.1 is shielded |
| TopicStandard.LostClientsExactly | src/qdap/broker/topic_tree.py:39-45 | a match leaves out a client both sections reach exactly when it has an unshielded filter at the parent level and all its 4.7.1 filters are at the parent level |
| TopicStandard.MatchByOtherIff | src/qdap/broker/topic_tree.py:39-45 | a match by one relation, clients and best QoS, is a match by another exactly when each filter of either is made up for by one of the other |
| TopicStandard.MatchMeetsBothIff | src/qdap/broker/topic_tree.py:39-68 | a match is what both sections ask for exactly when every filter on which they differ from the code is made up for by one of the same client |
| Topics.LiveExactly | src/qdap/broker/topic_tree.py:15-77 | a subscription is in the table, with a QoS, exactly when the history last subscribed it so |
| Topics.BestOfHistory | src/qdap/broker/topic_tree.py:39-68 | a client's best QoS in the table is the largest its history leaves among matching filters |
| TopicTrees.TopicTree.constructor | src/qdap/broker/topic_tree.py:11-13 | a new tree stands for the empty table |
| TopicTrees.TopicTree.Subscribe | src/qdap/broker/topic_tree.py:15-23 | sets one entry of the table and nothing else |
| TopicTrees.TopicTree.Walk | src/qdap/broker/topic_tree.py:18-22 | the loop ends at the node of the path, adds only missing nodes and changes no subscription |
| TopicTrees.TopicTree.Hang | src/qdap/broker/topic_tree.py:20-21 | a new child leaves a tree: no sharing, nothing else changed |
| TopicTrees.TopicTree.Unsubscribe | src/qdap/broker/topic_tree.py:25-28 | removes one entry, also when there is none |
| TopicTrees.TopicTree.UnsubscribeNode | src/qdap/broker/topic_tree.py:30-37 | the recursion, from any depth |
| TopicTrees.TopicTree.Match | src/qdap/broker/topic_tree.py:39-45 | each client with a matching filter once, with its best QoS, and no other |
| TopicTrees.TopicTree.MatchNode | src/qdap/broker/topic_tree.py:47-68 | below any node: raises the results to every matching entry, visited once or twice |
| TopicTrees.HitsSplit | src/qdap/broker/topic_tree.py:54-68 | the three branches together reach exactly the matching filters |
| TopicTrees.MergeAll | src/qdap/broker/topic_tree.py:50-51 | the inner loop keeps the maximum, in any order |
| TopicTrees.TopicTree.RemoveClient | src/qdap/broker/topic_tree.py:70-72 | removes all of a client's entries and no other |
| TopicTrees.TopicTree.RemoveFromNode | src/qdap/broker/topic_tree.py:74-77 | the recursion: exactly the entries at and below the node |
| TopicTrees.MatchAfter | src/qdap/broker/topic_tree.py:15-77 | after any history, a match is exactly what the history says |
| SessionStores.Session.GetPacketId | src/qdap/broker/session_store.py:14-17 | hands out the next id and moves on, 65535 back to 1 |
| SessionStores.IdAfterClosed | src/qdap/broker/session_store.py:14-17 | after n calls the id is (start - 1 + n) mod 65535 + 1: it counts up and wraps from 65535 to 1 |
| SessionStores.SessionStore.Create | src/qdap/broker/session_store.py:24-34 | a new session, or the kept one with the new writer |
| SessionStores.SessionStore.Remove | src/qdap/broker/session_store.py:40-46 | a clean session goes; another one loses its writer |
| SessionStores.SessionStore.GetWriter | src/qdap/broker/session_store.py:48-51 | the writer, or None without a session |
| SessionStores.SessionStore.TakePacketId | src/qdap/broker/broker.py:113-114 | the session's next id, no other session touched |
| SessionStores.IdsRepeatExactly | src/qdap/broker/session_store.py:14-17 | ids stay in 1..65535 and two calls agree exactly when a multiple of 65535 apart |
| BrokerStates.ParsedIsWellParsed | src/qdap/broker/packet_parser.py:69-133 | what the parser accepts is in range, and (un)subscriptions carry an id |
| BrokerStates.StepKeepsInv | src/qdap/broker/broker.py:70-156 | live connections and sessions with a writer name each other, and every client in the tree has one, after every step |
| BrokerStates.TreeClientsAreConnected | src/qdap/broker/broker.py:70-99 | in every reachable state each client in the tree has a session whose writer is its live connection |
| BrokerStates.ClosedStaysUnmatched | src/qdap/broker/broker.py:70-73 | after the cleanup no match returns the client, through any further run, until it subscribes again |
| BrokerStates.PublishReaches | src/qdap/broker/broker.py:101-119 | each receiver gets one PUBLISH that parses back to topic, payload and retain, at the smaller QoS, with an id in 1..65535 when that is above 0 |
| BrokerStates.PublishReachesNoOther | src/qdap/broker/broker.py:101-128 | nobody else's output changes, but for the publisher's PUBACK at QoS 1 |
| BrokerStates.SubscribedReceives | src/qdap/broker/broker.py:106-111 | in reachable states the receivers are exactly the subscribed clients other than the publisher |
| BrokerStates.PublisherIsNotEchoed | src/qdap/broker/broker.py:108-109 | no receiver writes to the publisher's connection |
| Brokers.DeliverOneMore | src/qdap/broker/broker.py:107-121 | delivering to one more client is one write, one id and one count |
| Brokers.Broker.constructor | src/qdap/broker/broker.py:26-29 | a new broker is in the start state |
| Brokers.Broker.Accept | src/qdap/broker/broker.py:31-36 | a new connection has no client id and nothing written |
| Brokers.Broker.HandleConnect | src/qdap/broker/broker.py:81-87 | takes exactly the CONNECT step |
| Brokers.Broker.HandlePublish | src/qdap/broker/broker.py:101-128 | takes exactly the PUBLISH step |
| Brokers.Broker.DeliverTo | src/qdap/broker/broker.py:108-123 | one matched client: skipped, or sent one PUBLISH |
| Brokers.Broker.DeliverAll | src/qdap/broker/broker.py:106-123 | the loop delivers to each receiver once, in any order of the match |
| Brokers.Broker.HandleSubscribe | src/qdap/broker/broker.py:134-141 | takes exactly the SUBSCRIBE step |
| Brokers.Broker.HandleUnsubscribe | src/qdap/broker/broker.py:143-147 | takes exactly the UNSUBSCRIBE step |
| Brokers.Broker.HandlePing | src/qdap/broker/broker.py:149-151 | answers with PINGRESP and nothing else |
| Brokers.Broker.Cleanup | src/qdap/broker/broker.py:70-73 | takes exactly the closing step |
| Brokers.Broker.HandlePacket | src/qdap/broker/broker.py:80-156 | any packet takes exactly its step, other types none, and DISCONNECT raises |
| BrokerSessions.IdsContinue | src/qdap/broker/session_store.py:14-46 | over any run that does not end a session, through disconnections and returns, it hands out its ids one after another, one for each publication sent to it with QoS above 0 |
| BrokerSessions.IdReusedExactly | src/qdap/broker/broker.py:112-114 | so a living session is back at an id exactly after each 65535 such publications |
| BrokerSessions.SubscribeTakesEffect | src/qdap/broker/broker.py:134-139 | a SUBSCRIBE leaves each listed filter live with the QoS it lists last, and every other subscription as it was |
| BrokerSessions.UnsubscribeTakesEffect | src/qdap/broker/broker.py:143-145 | an UNSUBSCRIBE ends exactly the listed filters of its client |
| BrokerSessions.SubackCarries | src/qdap/broker/packet_parser.py:139-141 | a SUBACK carries its id and, filter by filter, the QoS granted |
| BrokerLaws.PublicationConveyed | src/qdap/broker/broker.py:106-121 | each reached client is written one packet with the publication's topic, payload and retain flag, at the smaller of the two QoS values, with the session's next id exactly when both are above 0; only then does the session count on |
| BrokerLaws.SubscribePacket | src/qdap/broker/broker.py:134-141 | a packet of type 8 makes exactly the listed filters live, each with the QoS it lists last, and is answered by a SUBACK with its id and those QoS values |
| BrokerLaws.UnsubscribePacket | src/qdap/broker/broker.py:143-147 | a packet of type 10 ends exactly the listed filters of the connection's client, and is answered by an UNSUBACK with its id and success for each |
| BrokerLaws.ConnectPacketJoins | src/qdap/broker/broker.py:81-88 | a packet of type 1 binds the connection to its client id, or the generated one; a clean or new session takes the packet's flag and starts at id 1, another keeps both; it is answered by a CONNACK of success |
| BrokerLaws.PingPacket | src/qdap/broker/broker.py:149-151 | a packet of type 12 is answered by 0xD0 0x00 and changes nothing else |
| BrokerLaws.PublishPacketKeeps | src/qdap/broker/broker.py:101-128 | a packet of type 3 leaves subscriptions, connections and the set of sessions alone |
| BrokerLaws.OtherPacketKeeps | src/qdap/broker/broker.py:80-156 | any other packet changes nothing |
| BrokerLaws.CloseForgets | src/qdap/broker/broker.py:70-77 | when a connection ends its client's subscriptions go, and a clean session with them; another session loses its writer only |
| BrokerLaws.StatsFollowRun | src/qdap/broker/broker.py:87-121 | the counters are the run's publications, deliveries and CONNECTs |
| BrokerStreams.StepWritesPackets | src/qdap/broker/broker.py:80-151 | every step writes whole packets only |
| BrokerStreams.CutJoined | src/qdap/broker/broker.py:46-61 | packets written one after another are cut apart where they were joined |
| BrokerStreams.ClientReadsPackets | src/qdap/broker/broker.py:31-156 | in every reachable state, however a connection's bytes are cut into reads, they are read back as exactly the packets written, in order, with nothing left over |
| BrokerOutputs.StepWrites | src/qdap/broker/broker.py:80-156 | each event writes to each connection exactly the publication its client receives and the answer to its own packet |
| BrokerOutputs.RunWrites | src/qdap/broker/broker.py:31-156 | over any run a connection's output is what each event wrote to it, in the order of the events |
| BrokerOutputs.ClientReadsRun | src/qdap/broker/broker.py:31-156 | so a client, however its bytes are cut into reads, reads exactly the answers and publications of the run, in order |
| BrokerInputs.ConnectionFollows | src/qdap/broker/broker.py:31-78 | whatever other connections do in between, each connection's events, buffer and end are as its own bytes make them |
| BrokerInputs.ConnectionEvents | src/qdap/broker/broker.py:31-78 | and they are those of one pass over its bytes, however these are cut into reads, then the cleanup if it has ended |
| Servers.BufferStep | src/qdap/broker/broker.py:46-64 | the first frame of a buffer adds its packet's event, or ends the connection |
| Servers.Server.Open | src/qdap/broker/broker.py:31-36 | a handler starts with nothing read and no client id |
| Servers.Server.End | src/qdap/broker/broker.py:70-77 | the cleanup takes exactly the closing step, and the handler is gone |
| Servers.Server.TakeFrame | src/qdap/broker/broker.py:57-64 | one frame takes its packet's step, or ends the connection when it fails to parse or is a DISCONNECT |
| Servers.Server.Drain | src/qdap/broker/broker.py:46-64 | the inner loop takes the broker through the run of the buffer's packets, and keeps what is left |
| Servers.Server.Read | src/qdap/broker/broker.py:39-64 | one read takes the broker through the run of the packets it completes; an empty one ends the connection |
| Servers.Serve | src/qdap/broker/broker.py:31-78 | for any reads of any connections, cut and interleaved arbitrarily, the broker ends in the run of their packets' events, cleanups included |
| GhostWindows.GhostWindow.Add | qdap_core/src/ghost_session.rs:132-142 | inserts time stamp and first eight hash bytes, and evicts when the window is above its size; a new entry stays while there is room, or fewer than three others |
| GhostWindows.SortByAge | qdap_core/src/ghost_session.rs:249-252 | every entry once, oldest first |
| GhostWindows.GhostWindow.EvictOldest | qdap_core/src/ghost_session.rs:245-258 | drops a quarter rounded down, none newer than any kept, each counted as lost |
| GhostWindows.GhostWindow.ImplicitAck | qdap_core/src/ghost_session.rs:148-163 | removes, counts, returns and records the packet's age in milliseconds; says when it panics |
| GhostWindows.GhostWindow.DetectLoss | qdap_core/src/ghost_session.rs:172-189 | removes, counts and returns exactly the entries older than the expected round trip times the factor, and leaves the others as they were |
| GhostWindows.LostExactly | qdap_core/src/ghost_session.rs:173-181 | for any real round trip and factor: rounding the threshold and cutting it off at 64 bits change no answer |
| GhostWindows.GhostWindow.Remove | qdap_core/src/ghost_session.rs:193-195 | removes without counting, and says whether it was there |
| GhostWindows.GhostWindow.Reset | qdap_core/src/ghost_session.rs:203-208 | leaves a new window |
| GhostWindowRuns.Conservation | qdap_core/src/ghost_session.rs:132-208 | since the last reset, packets admitted = pending + acknowledged + lost + removed |
| GhostWindowRuns.Bounded | qdap_core/src/ghost_session.rs:132-142 | never more than max(max_size, 3) pending |
| GhostWindowRuns.SmallWindowsOverflow | qdap_core/src/ghost_session.rs:245-247 | that 3 is reached by every smaller window |
| GhostWindowRuns.RttsAreRecent | qdap_core/src/ghost_session.rs:148-163 | with room for samples, the buffer is the last min(acknowledged, room) round-trip times |
| GhostWindowRuns.PanicsExactly | qdap_core/src/ghost_session.rs:154-156 | an acknowledgement panics exactly without room for samples and with the packet pending |
| GhostWindowRuns.FirstAckPanics | qdap_core/src/ghost_session.rs:154-156 | the failing run: with no room for samples, an addition and its acknowledgement |
| GhostWindowRuns.DetectIsIdempotent | qdap_core/src/ghost_session.rs:172-189 | a second detection at the same time finds nothing |
| Chunker.JoinSplit | qdap_core/src/chunker.rs:18-33 | the chunks joined are the payload |
| Chunker.SplitAt | qdap_core/src/chunker.rs:27-30 | chunk i is the slice from i * size on |
| Chunker.SplitsAgree | src/qdap/_rust_bridge.py:557-561 | the second implementation gives the same chunks for every payload and size |
| Chunker.PlanParallelChunks | qdap_core/src/chunker.rs:76-94 | the planned intervals tile the payload without gap, overlap or empty slot, all but the last of full size; streams take turns, and none has two chunks more than another |
| Chunker.StreamsBalanced | qdap_core/src/chunker.rs:86-92 | the streams' chunk counts differ by at most one |
| Chunker.PlanCutsChunks | qdap_core/src/chunker.rs:86-92 | the planned intervals are the chunks the splitter cuts |
| Reassembler.StreamBuffer.Reassemble | src/qdap/chunking/reassembler.py:38-39 | the chunks in index order, or the KeyError of a gap |
| Reassembler.ChunkReassembler.ProcessChunk | src/qdap/chunking/reassembler.py:91-108 | one chunk's effect on all streams, and what it hands over |
| Reassembler.ChunkReassembler.CleanupStale | src/qdap/chunking/reassembler.py:110-115 | exactly the streams older than 30 s go |
| ReassemblerRuns.FullIffCounted | src/qdap/chunking/reassembler.py:28-29 | the count of distinct in-range indices is full exactly when none is missing |
| ReassemblerRuns.BuffersFollowLog | src/qdap/chunking/reassembler.py:72-115 | in every reachable state a stream's buffer is what its own arrivals say, whatever other streams do |
| ReassemblerRuns.HandsOverExactly | src/qdap/chunking/reassembler.py:72-108 | an arrival hands over the in-order join exactly when it brings the last index missing since the stream was last complete or stale; it never raises |
| ReassemblerRuns.PayloadComesBack | src/qdap/chunking/reassembler.py:72-115 | composed with the splitter, through any order, repetition, interleaving and sweeps: the original payload on exactly the arrivals that leave no chunk missing since the stream was last complete or stale |
| ReassemblerRuns.PayloadComesFirst | src/qdap/chunking/reassembler.py:72-115 | while no sweep forgets the stream: on the first arrival after which every chunk has come, and not before |
| ReassemblerRuns.RaisesExactly | src/qdap/chunking/reassembler.py:28-39 | for any buffer: the KeyError is raised exactly when the count is full and some index lies beyond the total |
| AdaptiveSessions.OnlineMarkovEstimator.constructor | src/qdap/broker/ghost_session_adaptive.py:135-147 | the priors of a profile |
| AdaptiveSessions.OnlineMarkovEstimator.Update | src/qdap/broker/ghost_session_adaptive.py:149-169 | one transition moves the averages and counters of its source phase only |
| AdaptiveSessions.AdaptiveGhostSession.constructor | src/qdap/broker/ghost_session_adaptive.py:269-293 | a session in CONNECTING with six separate equal estimators |
| AdaptiveSessions.AdaptiveGhostSession.SetNetwork | src/qdap/broker/ghost_session_adaptive.py:295-299 | changes the profile only |
| AdaptiveSessions.AdaptiveGhostSession.OnDataReceived | src/qdap/broker/ghost_session_adaptive.py:301-305 | wakes a connecting or ghost session |
| AdaptiveSessions.AdaptiveGhostSession.Tick | src/qdap/broker/ghost_session_adaptive.py:307-322 | the two time limits, by phase |
| AdaptiveSessions.AdaptiveGhostSession.Record | src/qdap/broker/ghost_session_adaptive.py:325-341 | time stamp, duration and entry time from three separate readings of the clock; 20 phases of history |
| AdaptiveSessions.AdaptiveGhostSession.MoveTo | src/qdap/broker/ghost_session_adaptive.py:324-341 | records the transition and teaches all six estimators |
| AdaptiveSessionRuns.TransitionsArePath | src/qdap/broker/ghost_session_adaptive.py:301-341 | the record is a path of the phase graph from CONNECTING to the present phase |
| AdaptiveSessionRuns.FlowLaw | src/qdap/broker/ghost_session_adaptive.py:301-341 | in every run, transitions into a phase exceed those out of it by 1 exactly while the session is in it |
| AdaptiveSessionRuns.CountersMatchRecord | src/qdap/broker/ghost_session_adaptive.py:149-169 | the estimator's counters are the counts of the recorded transitions |
| AdaptiveSessionRuns.HistoryLaw | src/qdap/broker/ghost_session_adaptive.py:336-338 | the history is the last at most 20 phases left |
| AdaptiveSessionRuns.EstimatorsAgree | src/qdap/broker/ghost_session_adaptive.py:332-334 | the five estimators per order always equal the main one |
| AdaptiveSessionRuns.DurationsAddUp | src/qdap/broker/ghost_session_adaptive.py:324-341 | recorded durations plus the time between the two readings of each transition make the time from creation to the last transition, whatever the clock does |
| AdaptiveSessionRuns.DurationsFallShort | src/qdap/broker/ghost_session_adaptive.py:324-341 | with a clock that does not go back the durations never exceed that time |
| AdaptiveSessionRuns.ClockAndProfileLaw | src/qdap/broker/ghost_session_adaptive.py:295-305 | the idle clock runs from the last data in any phase, and the profile is that of the last detected network |
| AdaptiveSessionRuns.ClosedIsFinal | src/qdap/broker/ghost_session_adaptive.py:301-322 | once CLOSED, nothing but the clock and the profile changes |
| AdaptiveSessionRuns.SilenceLaw | src/qdap/broker/ghost_session_adaptive.py:307-322 | with ticks only, CLOSED exactly when a tick past the hard limit follows one past the idle limit, GHOST when only the idle limit was passed |
| AdaptiveSessionRuns.DataWakes | src/qdap/broker/ghost_session_adaptive.py:301-305 | data brings every session but a CLOSED one to ACTIVE, and the move is stamped with the first clock reading |
| AdaptiveSessionRuns.AfterData | src/qdap/broker/ghost_session_adaptive.py:301-322 | after any run, from the last data on, with ticks only: the phase depends on the gaps alone unless the session was CLOSED |
| AdaptiveSessionRuns.EstimatorLaw | src/qdap/broker/ghost_session_adaptive.py:135-169 | p_d, p_r, q in [0, 1] and p_r + q <= 1; the gaps shrink by exactly (1 - alpha) per exit from GHOST and from ACTIVE, through network changes |
| AdaptiveSessionRuns.PriorExactly | src/qdap/broker/ghost_session_adaptive.py:135-147 | for any profile the rates start at 1 / limit cut off at 1, and the counters at 0 |
| AdaptiveSessionRuns.LearnExactly | src/qdap/broker/ghost_session_adaptive.py:149-169 | for any transition whatever: only the phase left is informed, and p_d falls when the drop is not to GHOST |
| AdaptiveSessionRuns.RatesLaw | src/qdap/broker/ghost_session_adaptive.py:135-169 | in every run p_d, p_r and q by themselves: from 1 / idle, 0.8 and 1 / hard, p_d and p_r rise towards 1 and q falls towards 0 by the factor (1 - alpha) per drop and return, and CLOSED does the opposite once |
| Delta.FramesRoundTrip | qdap_core/src/delta.rs:30-94 | parsing inverts wrapping for both kinds of frame |
| Delta.FrameLayout | qdap_core/src/delta.rs:30-50 | a type byte, for a delta the mask with the high byte first, then the payload |
| Delta.ParsedFramesRewrap | qdap_core/src/delta.rs:55-94 | wrapping inverts parsing, and exactly which frames are rejected |
| Delta.ComputeBitmask | qdap_core/src/delta.rs:100-113 | bit i is set exactly when there is a field i, i < 16, and it is among the changed keys |
| Delta.BoundIsNoBitBeyond | qdap_core/src/delta.rs:118-123 | "no bit beyond the list" as a bound on the mask |
| Delta.ExpandComputed | qdap_core/src/delta.rs:100-123 | expanding a computed mask gives the changed names among the first 16, in order |
| Delta.ExpandExactly | qdap_core/src/delta.rs:117-123 | expansion lists the fields at the set bits below 16, in field order |
| Delta.RecomputeExactly | qdap_core/src/delta.rs:115-123 | recomputing from an expansion gives the mask back exactly when no bit is beyond the list and equal names have equal bits |
| Delta.RecomputeFails | qdap_core/src/delta.rs:115-123 | a bit beyond the list, and one of two fields of the same name, do not come back |
| Delta.RecomputeDistinct | qdap_core/src/delta.rs:115-123 | with distinct fields: exactly when no bit is beyond the list |
| Delta.DeltaSurvivesTheWire | qdap_core/src/delta.rs:40-123 | changed names and payload survive mask, frame, parse and expansion |
| Channel.SegmentIntersectsBox | simulations/v2x/channel.py:71-87 | the loop's answer for every segment and box, as the existence of an admitted point |
| Channel.IsLos | simulations/v2x/channel.py:63-68 | true exactly when no building is hit |
| Channel.ExactIffClean | simulations/v2x/channel.py:71-87 | for all boxes of non-negative size the answer is "some point of the segment is in the box", exactly when each axis delta is 0 or at least 1e-9 |
| Channel.TiltedMisses | simulations/v2x/channel.py:77-79 | for any other segment, a wall it touches at its end is missed from one side and hit from the other |
| Channel.MutualIffClean | simulations/v2x/channel.py:63-87 | line of sight is symmetric for all buildings exactly under the same condition |

## Left out

- Sockets, timeouts, logging and failing writes: a writer is the number of a connection and what was written to it is a list; every write succeeds.
- Interleaving of handlers at their awaits: each packet is handled as one step. Locks are therefore not modelled.
- Text encoding: strings are their bytes, so the exception of an invalid UTF-8 string in `decode_string` does not occur.
- MQTT takeover of a client id by a second live connection, a second CONNECT, SUBSCRIBE before CONNECT, QoS 2 flows and retained messages: `Legal` excludes the first three, the broker does not implement the others.
- Brokers.Broker.HandleSubscribe: does not take a connection without a client id, because SUBSCRIBE before CONNECT is a misuse the broker has no rule for; the source would subscribe under `None`.
- Brokers.Broker.HandleUnsubscribe: the same, for UNSUBSCRIBE before CONNECT.
- Brokers.Broker.HandlePacket: takes legal events only, for the same reason: no second CONNECT, no takeover, no SUBSCRIBE before CONNECT. The source would accept them, and then connections and sessions no longer name each other.
- Servers.Server.TakeFrame: takes frames whose event is legal in that sense.
- Servers.Server.Drain: takes buffers whose events are legal in that sense.
- Servers.Server.Read: takes reads whose events are legal in that sense.
- Servers.Serve: takes inputs whose events are legal in that sense.
- The generated client id `auto_<id>`: a parameter, required to be non-empty and unused by a live connection.
- `pending_qos1`, schedulers, priorities and the resumed-session cache: nothing modelled reads them.
- The order in which dictionaries and hash maps are walked: any order, in loops over sets.
- Floating-point rounding and NaN: probabilities, times, estimates and geometry are real numbers, and each reading of a clock is an argument of its call. Powers are exact; a power that is infinite in floating point is None.
- FecNativeExact.NativeIsExactIff: does not cover r >= 1 with k >= 2 and 2^32 packets or more, where exponents and coefficients wrap together.
- FecNativeWrap.MoreParityHelpsNativeIff: does not decide the 23 values of k from 2147483623 on that leave the exponents in 32 bits.
- FecNativeParity.MoreParityHelpsNative: gives a sufficient condition for each single k and r; which sums of wrapped coefficients happen to fall has no shorter description than the sums.
- The 64-bit arithmetic of the loss formula wraps, as in a release build; a debug build panics instead.
- Counters and time stamps of the in-flight window are unbounded; the cast of the loss threshold to 64 bits saturates as in Rust.
- The unstable sort of the eviction is an insertion sort; which of several equally old entries go is left open, as in the source.
- `_match_node` fills one shared dictionary; here the results are passed along as a value.
- `on_complete` and the header parsing of chunks and batches: a chunk or batch is its already parsed record. The two handlers are the same code and are modelled once.
- `_update_k`, log-likelihoods and the detection of the network type: logarithms and thresholds; the detected type is an argument of `SetNetwork`.
- Negative r or length arguments of the Python functions: the Rust signatures exclude them.
- The Python fallbacks of the delta functions: they compute the same masks, frames and expansions.
- `delta_change_ratio`, `fec_ema_update`, `calculate_optimal_chunk_size`, frame headers, cryptography, the schedulers and the simulations' random channel: one-expression facts, foreign primitives or inexact floats.
