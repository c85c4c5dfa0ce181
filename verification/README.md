# A Dafny model of the freewebrtc STUN stack

The project models the STUN implementation of freewebrtc (wire format, UDP client, timeout
calculator, stateless server) with the pieces it stands on (intrusive list, wrapping time points,
CRC-32, HMAC), and three small parsers from the same library (FQDN, RTP, token splitting).

How the layers fit together:

- **Wire format.** `Bytes`, `Crc32`, `Hmac`, `Address`, `Header`, `Attributes`, `Messages`,
  `Builder` and `Parser` hold the operations; `RoundTrip`, `Integrity`, `Tiling`, `Received` and
  `RepeatedIntegrity` say what they mean together. `Encodings` and `Wire` say it in terms of the
  bytes alone, with the numbers of the standards written out: which buffers are read as which
  message, which are refused and why, whoever wrote them.
- **UDP client.** `Retransmit` and `Client` are the state machine as functions on values;
  `ClientInvariant`, `ClientRuns`, `Outcomes`, `Provenance`, `Discipline`, `Effort`, `Accounting`,
  `Schedule`, `Timetable`, `Waits`, `Estimates`, `Responses` and `Callers` are about every step and
  every run of it, `Witnesses` holds runs at which expectations fail or bounds are reached, and
  `WrappedClient` carries the steps over to wrapping time;
  `Callers` states the main results under conditions over calls and returned effects alone. `ClientUdp` is the object with mutable
  fields: it records the calls made on it, and every method leaves it where `ClientRuns.Run` of
  those calls leads, so each theorem about runs is a theorem about the object.
- **Timeout calculator.** `Rto` is its meaning, `Smoothing` compares it with RFC 6298 on exact
  numbers; `IntrusiveList` (over `Sequences`) is the pointer structure in the
  heap; `RtoCalculator` is the object that threads its map entries on such a list.
- **Server.** `Server` is the stateless server, `ServerAnswers` its decision table,
  `EndToEnd` the composition of client, server and wire format.
- **Small pieces.** `Timepoint`, `Fqdn`, `Rtp`, `StringView`.

Modelling choices. The hash is any function from the concatenated chunks to a digest or an
error. The iteration order of an unordered map is an arbitrary enumeration of its keys, given as a
parameter. The priority queue of timers is a sorted sequence. Random transaction ids are a
sequence of draws given to `create`. The client uses unbounded integer time; `WrappedClient` is
the client on 64-bit wrapping counters and takes the same steps while its times stay near. A read or subview fails exactly when it leaves
the buffer; a subview of zero bytes at the very end of the buffer succeeds.

Where the code and its documentation, or the standard, disagree, the model follows the code and
says so with a lemma:

- `max_rto` is documented as a maximum (src/stun/stun_client_udp_settings.hpp:35-37) and applied
  as a lower bound, also of waits it has raised itself: `Witnesses.MaximumExceeded`,
  `Witnesses.EightSecondsDoubled`. Exactly when it is honoured all the same is
  `Timetable.MaximumExact`; with four or more requests a positive maximum never is.
- The builder of MAPPED-ADDRESS and ALTERNATE-SERVER writes a zero family byte, which the parser
  refuses: `Attributes.NoFamily`, and the exact condition in `Attributes.AttributeRoundTrip` and
  `RoundTrip.RoundTripExact`.
- The size of a value is combined with its type without a check, so one beyond 16 bits changes the
  type announced: `Wire.SizeLeaks`, with the exact condition in `Wire.SizeFits`.
- A response to an RFC 3489 client repeats its 16-byte id, which the parser takes only in
  requests; so no answer to such a client, success or error, can be read back by this library:
  `ServerAnswers.AnswerReadable`, and requests in `ServerAnswers.OldClientUnreadable`.
- With a single planned request the final wait is RTO and not Rm times RTO:
  `Schedule.TimeoutMatchesRfc`, and a run in `Witnesses.SingleRequestTimesOut`.
- A transaction stays live until its outcome is handed out, so a duplicated response queues a
  second outcome, and a response that races a due timer lets the timer fire after it:
  `Discipline.DuplicateFinishesTwice`, `Discipline.RaceGoesOnAfterOutcome`. The exact condition
  is in `ClientRuns.AtMostOnceIffSafe`; a condition a caller can check is in
  `Callers.CarefulExactlyOnce`.
- With several MESSAGE-INTEGRITY attributes the digest kept is the first and the extent kept that
  of the last: `RepeatedIntegrity.TwoDigestsDisagree`, with the exact condition in
  `RepeatedIntegrity.CoveredExact`.
- Two time points exactly half the range apart are each after the other, and the timer order is
  not transitive without a bound on the span: `Timepoint.AfterExact`, `Timepoint.ComparatorCycles`,
  with the exact bound in `Timepoint.OrderExact`.
- `advance_from` does not always advance what it takes off the duration. For units finer than a
  microsecond it goes wrong exactly on negative durations: `Timepoint.AdvanceFromConserves`; for
  coarser ones the exact condition is `Timepoint.CoarseConserves`, with inputs on both sides in
  `Timepoint.CoarseWitnesses`.
- RFC 3550 asks for at least one padding byte in a padded packet; the code takes a last byte of
  zero as no padding: `Rtp.PaddingPresent`, `Rtp.PaddedWithoutPadding`.

## Model

| member | source | states |
|---|---|---|
| `Crc32.TableIsEightSteps` | src/stun/details/stun_fingerprint.cpp:12-56 | every one of the 256 table entries is eight steps of the bit-at-a-time register with polynomial 0xEDB88320 |
| `Crc32.TableFormIsCrc32` | src/stun/details/stun_fingerprint.cpp:58-69 | the table form equals the bit-at-a-time CRC-32 on every byte string |
| `Crc32.ChunkingIrrelevant` | src/stun/details/stun_fingerprint.cpp:71-78 | the checksum of a list of views is the checksum of their concatenation, however it is cut |
| `Crc32.BurstDetected` | src/stun/details/stun_fingerprint.cpp:58-78 | two equal-length strings that differ only within four consecutive bytes never share a checksum (a single differing byte included) |
| `Hmac.PadBlock` | src/crypto/crypto_hmac.hpp:57-64 | the in-place loop combines every byte of the block with the pad byte |
| `Hmac.KeyBlock` | src/crypto/crypto_hmac.hpp:66-85 | a key of at most a block is its block with zeros behind it; a longer one gives way to its digest, and fails only with the hash |
| `Hmac.MacOfConcat` | src/crypto/crypto_hmac.hpp:92-107 | the digest depends only on the concatenation of the chunks |
| `Hmac.MacIsRfc2104` | src/crypto/crypto_hmac.hpp:66-107 | for every key, text and hash the keyed digest is that of RFC 2104 |
| `Address.XoredRoundTrip` | src/stun/stun_address.cpp:67-124 | masking and unmasking an address undo each other in both directions, for every address and transaction id |
| `Address.XorHolder` | src/stun/stun_address.cpp:67-124 | the in-place loop over the 16-byte holder combines it with the mask of cookie and transaction id |
| `Address.Mask` | src/stun/stun_address.cpp:67-98 | the mask is the cookie, then at most twelve bytes of transaction id, then zeros |
| `Address.FromView` | src/stun/stun_address.cpp:45-65 | a view is an address of a family exactly when its length is that family's |
| `Address.FamilyFromByte` | src/stun/stun_address.cpp:25-43 | reading a family byte inverts writing it and fails on every other byte |
| `Header.MessageTypeBijective` | src/stun/stun_method.hpp:37-56 | interleaving class and method bits is a bijection with the 16-bit message types |
| `Header.TypeLayout` | src/stun/stun_class.hpp:51-74 | for every class and method the class stands in bits 4 and 8 of the message type and the method in the others, in order |
| `Header.HeaderBytes` | src/stun/stun_header.cpp:15-35 | where type, length, cookie and id stand in the 20 bytes, for 12-byte and 16-byte ids |
| `Attributes.AttributeRoundTrip` | src/stun/stun_attribute.cpp:30-49 | every attribute is read back from its own value field exactly when it keeps its family byte and its code fits |
| `Attributes.XorMappedRoundTrip` | src/stun/stun_attribute.cpp:131-179 | XOR-MAPPED-ADDRESS is read back as written |
| `Attributes.NoFamily` | src/stun/stun_attribute.cpp:113-129 | what the MAPPED-ADDRESS builder writes is always refused by its parser; what the parser reads of others is `Encodings.MappedExact` |
| `Attributes.ErrorCodeRoundTrip` | src/stun/stun_attribute.cpp:301-339 | ERROR-CODE is read back exactly when its hundreds fit 24 bits; an absent reason comes back empty |
| `Attributes.ReadTypesLoop` | src/stun/stun_attribute.cpp:266-279 | the reading loop of UNKNOWN-ATTRIBUTES yields the types in order |
| `Attributes.WriteTypesLoop` | src/stun/stun_attribute.cpp:281-299 | the writing loop fills the buffer with two bytes per type in order |
| `Attributes.TypesRoundTrip` | src/stun/stun_attribute.cpp:266-299 | every list of types is read back as written |
| `Encodings.MappedExact` | src/stun/stun_attribute.cpp:71-111 | for every value and endpoint: MAPPED-ADDRESS and ALTERNATE-SERVER values are read as it exactly when they are one arbitrary byte, its family byte (1 or 2), its port and its address bytes |
| `Encodings.MappedRefused` | src/stun/stun_attribute.cpp:71-111 | which of these values are refused, and each error exactly: too short, unknown family, size that is not the family's |
| `Encodings.XorMappedExact` | src/stun/stun_attribute.cpp:131-169 | the same for XOR-MAPPED-ADDRESS, the port combined with 0x2112 |
| `Encodings.ParseExact` | src/stun/stun_attribute.cpp:30-49 | for every value, type and attribute: the attribute is read exactly when the type is its registered number and the value encodes it byte for byte, with the standard's constants written out |
| `Encodings.UnknownExact` | src/stun/stun_attribute.cpp:30-49 | a value is kept as unknown exactly when its type is no registered one, and then as it is |
| `Encodings.ValueRefused` | src/stun/stun_attribute.cpp:71-358 | for every type, the values refused and the error they are refused with, in both directions |
| `Encodings.WrittenEncodes` | src/stun/stun_attribute.cpp:171-179 | what the builder writes encodes the attribute as it will be read back, unless the family is lost |
| `Encodings.FamilyIsAllThatIsLost` | src/stun/stun_attribute.cpp:113-129 | where it is lost, putting the family byte in makes the value the right encoding |
| `Encodings.XorMappedOnWire` | src/stun/stun_address.cpp:67-124 | XOR-MAPPED-ADDRESS on the wire for every address, port and id: port combined with 0x2112, address with 21 12 A4 42 and the id |
| `Encodings.TypeIsRegistered` | src/stun/details/stun_attr_registry.hpp:15-39 | every attribute carries its registered number |
| `Encodings.RequiredOnWire` | src/stun/stun_attribute_type.hpp:48-52 | comprehension is required exactly when the first bit of the type is clear on the wire |
| `Messages.Emplace` | src/stun/stun_attribute_set.hpp:57-62 | the first attribute of a type stays, a new type is filed, nothing else changes, and every attribute keeps to its own type |
| `Messages.UnknownRequired` | src/stun/stun_attribute_set.cpp:105-113 | exactly the unknown types that require comprehension, and none exactly when there is no such attribute |
| `Messages.RequiredAppend` | src/stun/stun_attribute_set.cpp:105-113 | order and repetition are kept: a list contributes what its parts contribute, one after the other |
| `Messages.CollectRequired` | src/stun/stun_attribute_set.cpp:105-113 | the loop collects exactly those types |
| `Builder.AddAttribute` | src/stun/stun_attribute_set.cpp:130-245 | one attribute appends its header, value and padding, and adds their size modulo 2^32 |
| `Builder.AddKnown` | src/stun/stun_attribute_set.cpp:130-230 | the loop over the map, in any iteration order, writes every attribute but the two computed ones |
| `Builder.AddPlain` | src/stun/stun_attribute_set.cpp:130-245 | after both loops the views stand for all given attributes |
| `Builder.AddIntegrity` | src/stun/stun_attribute_set.cpp:247-263 | the digest is taken over a header that counts up to the end of MESSAGE-INTEGRITY and everything before it |
| `Builder.AddFingerprint` | src/stun/stun_attribute_set.cpp:264-291 | the checksum is taken over the final header and everything before FINGERPRINT |
| `Builder.Build` | src/stun/stun_attribute_set.cpp:130-291 | the list-of-views procedure with its running size yields the message as specified, for every iteration order |
| `Parser.ScanLoop` | src/stun/stun_message.cpp:258-323 | the attribute loop stays on word boundaries inside the buffer, terminates and gathers what the recursive reading does |
| `Parser.RawExact` | src/stun/stun_message.cpp:226-245 | an attribute is read exactly when the buffer holds its type, its length and its value from the offset on |
| `Parser.AlignedLengthIsPadded` | src/stun/stun_message.cpp:247-256 | the distance to the next attribute is header and value rounded up to a word |
| `RoundTrip.HeaderRoundTrip` | src/stun/stun_message.cpp:43-95 | a header is read back exactly when the body fits 16 bits and the id survives |
| `RoundTrip.RoundTripExact` | src/stun/stun_message.cpp:43-159 | for every header, attribute set, iteration order and integrity choice, parsing what was built gives back header, known attributes and unknown list exactly when the body fits 16 bits, the id survives, no unknown attribute has a known type, no attribute loses its family and every error code fits; integrity and fingerprint are present exactly as asked |
| `RoundTrip.BuildIsFields` | src/stun/stun_attribute_set.cpp:130-291 | a built message is its header and fields, with the digest over the covered bytes and the checksum over all before it |
| `RoundTrip.SlotsSuffice` | src/stun/stun_attribute_set.cpp:131-140 | the attribute headers written never exceed the slots set aside: one per attribute of the set and one for the integrity if asked for |
| `Wire.FieldExact` | src/stun/stun_attribute_set.cpp:141-157 | one written attribute is its type, size and value, and fewer than four bytes of padding, all zero, to the next word |
| `Wire.SizeFits` | src/stun/stun_attribute_set.cpp:142-146 | the four bytes before a value announce its type and size exactly when the size fits 16 bits |
| `Wire.SizeLeaks` | src/stun/stun_attribute_set.cpp:142-146 | a size beyond that leaks into the type: a user name of 65536 bytes is announced as an empty attribute of type 7 |
| `Integrity.CheckedIsCovered` | src/stun/stun_message.cpp:161-204 | the checker's patched four bytes and subview are the builder's provisional header and attributes |
| `Integrity.IntegrityAgrees` | src/stun/stun_message.cpp:161-204 | for every message this library builds, every key and hash: the signer's key checks out, and any other key is compared over the same bytes |
| `Tiling.TilingUnique` | src/stun/stun_message.cpp:226-323 | a buffer is tiled by attributes in at most one way |
| `Tiling.ScanTiles` | src/stun/stun_message.cpp:258-323 | the loop succeeds exactly when the rest of the buffer is tiled with any fingerprint single and last, keeps exactly the attributes that count, and notes where the last of each special one starts |
| `Tiling.AcceptedExact` | src/stun/stun_message.cpp:43-159 | every buffer is accepted exactly when its header is, its body is tiled, the kept attributes are well formed and the fingerprint holds |
| `Tiling.TiledMessage` | src/stun/stun_message.cpp:70-159 | the whole message a tiled buffer yields: its set is read from the kept attributes alone, its extent ends at the last MESSAGE-INTEGRITY |
| `Tiling.IgnoredAfterIntegrity` | src/stun/stun_message.cpp:258-323 | of two tiled buffers with the same kept attributes each is accepted exactly when these are well formed and its own fingerprint holds, and both yield the same set, whatever else follows the first MESSAGE-INTEGRITY |
| `Wire.HeaderExact` | src/stun/stun_message.cpp:43-95 | for every buffer and header: it is read exactly when the first twenty bytes are those of the header with the length of what follows, in whole words, and a 16-byte id stands in a request without the cookie |
| `Wire.HeaderRefused` | src/stun/stun_message.cpp:43-87 | each error of the header exactly, in the order of the checks |
| `Wire.BindingTypes` | src/stun/stun_class.hpp:51-74 | the two bytes every binding message of each class starts with |
| `Wire.SealExact` | src/stun/stun_message.cpp:118-145 | the fingerprint check passes exactly when the last attribute is no FINGERPRINT or starts with the CRC-32 of all bytes before it combined with 0x5354554E |
| `Wire.MessageExact` | src/stun/stun_message.cpp:43-159 | for every buffer and message: the parser gives this message exactly when the bytes lay it out: header, attributes tiling the body, kept ones encoding the attributes filed, fingerprint last and matching, extent at the last MESSAGE-INTEGRITY |
| `Wire.RefusedExact` | src/stun/stun_message.cpp:43-159 | for every buffer and error: the parser gives this error exactly when the header calls for it, or the walk over the attributes gets stuck for that reason, or the first malformed kept attribute has it, or all are read and the fingerprint is wrong |
| `RepeatedIntegrity.CoveredExact` | src/stun/stun_message.cpp:283-290 | in every accepted message the digest kept is the first, the extent kept is that of the last, and they belong together exactly when there is one MESSAGE-INTEGRITY |
| `RepeatedIntegrity.TwoDigestsDisagree` | src/stun/stun_message.cpp:283-290 | every message made of two digests is accepted and checked with the first over the bytes up to the second |
| `RepeatedIntegrity.ReceivedChecked` | src/stun/stun_message.cpp:161-204 | for every accepted message with one MESSAGE-INTEGRITY, whoever wrote it, and every key: the twenty bytes behind its header are compared with the keyed digest of everything before it, the length counting up to its end |
| `Received.AcceptedShape` | src/stun/stun_message.cpp:43-159 | in every accepted message attributes are filed under their types, a digest comes with its extent inside the buffer, and unknown attributes are bounded by the body |
| `Received.ValidExact` | src/stun/stun_message.cpp:161-204 | for every message, buffer and key: valid exactly when the digest carried is that of the key over the covered bytes, unsigned exactly when there is nothing to compare, and the hash's error exactly when it fails |
| `Rto.FrontOnlyIsFilter` | src/stun/details/stun_client_udp_rto.cpp:88-100 | on a timeline in order of update, evicting from the front leaves exactly what an age filter over all entries would |
| `Rto.EvictOnlyOthers` | src/stun/details/stun_client_udp_rto.cpp:37-100 | the entry just updated is never evicted |
| `Rto.UpdatedStays` | src/stun/details/stun_client_udp_rto.cpp:37-100 | over all history durations, it survives exactly when the duration is not negative; otherwise everything is evicted |
| `Rto.RunIsSimple` | src/stun/details/stun_client_udp_rto.cpp:37-100 | over every run with non-decreasing time the timeline holds each entry once in order of update, and the entries are those of a map filtered by age |
| `Rto.EntriesFromEvents` | src/stun/details/stun_client_udp_rto.cpp:37-86 | an entry exists exactly if its path has events since its last eviction, and is a fold over them |
| `Rto.TimeoutIsEstimate` | src/stun/details/stun_client_udp_rto.cpp:21-35 | the timeout handed out is the latest backoff if no sample followed it, else SRTT + 4 RTTVAR over the samples since eviction, else the initial value; how near that is to RFC 6298 is `Smoothing.TimeoutNear` |
| `Rto.SmoothWithin` | src/stun/details/stun_client_udp_rto.cpp:47-71 | with truncating division SRTT stays within the samples and RTTVAR within their spread |
| `Rto.TimeoutWithin` | src/stun/details/stun_client_udp_rto.cpp:21-72 | for all samples in [lo, hi] a sample-based timeout is in [lo, hi + 4 max(hi/2, hi - lo)] |
| `Smoothing.SmoothenExact` | src/stun/details/stun_client_udp_rto.cpp:47-71 | one sample, for every estimate and sample: SRTT is an eighth of seven old and one new, RTTVAR a quarter of three old and one deviation from the old SRTT, each cut off toward zero; the first sample R gives R and R/2 |
| `Smoothing.SmoothNear` | src/stun/details/stun_client_udp_rto.cpp:47-71 | for every history whatever: SRTT within 7 and RTTVAR within 10 microseconds of the recurrence of RFC 6298 on real numbers (alpha 1/8, beta 1/4) |
| `Smoothing.SmoothBelow` | src/stun/details/stun_client_udp_rto.cpp:47-71 | for every history of samples that are not negative: 0 <= exact SRTT - SRTT <= 7 and -7 <= exact RTTVAR - RTTVAR <= 10 |
| `Smoothing.EstimateNear` | src/stun/details/stun_client_udp_rto.cpp:21-35 | for every history the timeout is within 47 microseconds of the standard's, and equal to it after a backoff |
| `Smoothing.TimeoutNear` | src/stun/details/stun_client_udp_rto.cpp:21-100 | the same of the timeout handed out for every path after every run with non-decreasing times |
| `IntrusiveList.Remove` | src/util/util_intrusive_list.hpp:146-158 | the link leaves whatever list it is in; no other list in the heap changes |
| `IntrusiveList.PushBack` | src/util/util_intrusive_list.hpp:172-182 | the link moves from wherever it was to the end of this list; no third list changes |
| `IntrusiveList.PushFront` | src/util/util_intrusive_list.hpp:160-170 | the link moves from wherever it was to the start of this list; no third list changes |
| `IntrusiveList.PopFront` | src/util/util_intrusive_list.hpp:235-244 | the sequence loses its first element |
| `IntrusiveList.PopBack` | src/util/util_intrusive_list.hpp:246-255 | the sequence loses its last element |
| `IntrusiveList.Front` | src/util/util_intrusive_list.hpp:257-267 | the owner of the first element, or nothing |
| `IntrusiveList.Back` | src/util/util_intrusive_list.hpp:288-298 | the owner of the last element, or nothing |
| `IntrusiveList.Empty` | src/util/util_intrusive_list.hpp:312-320 | whether the sequence is empty |
| `IntrusiveList.Clear` | src/util/util_intrusive_list.hpp:281-286 | the loop terminates with an empty list and every former node loose |
| `IntrusiveList.Replace` | src/util/util_intrusive_list.hpp:107-123 | the new link takes exactly the old one's place, the old one is loose |
| `IntrusiveList.MoveFrom` | src/util/util_intrusive_list.hpp:212-223 | the whole sequence moves over, the source is empty, former nodes are loose, no third list changes |
| `IntrusiveList.Transfer` | src/util/util_intrusive_list.hpp:322-335 | rehanging the chain between the other sentinels keeps the sequence |
| `Sequences.WithoutAt` | src/util/util_intrusive_list.hpp:146-158 | removing an element of a sequence without repetition closes exactly its gap |
| `RtoCalculator.Calculator.Get` | src/stun/details/stun_client_udp_rto.cpp:21-35 | the heap lookup returns the timeout of the abstract state |
| `RtoCalculator.Calculator.EvictOutdated` | src/stun/details/stun_client_udp_rto.cpp:88-100 | the loop over the heap list refines eviction on the abstract timeline and keeps every other entry's node |
| `RtoCalculator.Calculator.NewRtt` | src/stun/details/stun_client_udp_rto.cpp:37-72 | on the linked structure, exactly the sample step of the abstract calculator |
| `RtoCalculator.Calculator.Backoff` | src/stun/details/stun_client_udp_rto.cpp:74-86 | on the linked structure, exactly the backoff step of the abstract calculator |
| `Retransmit.AdvanceSpends` | src/stun/stun_client_udp.cpp:420-471 | a firing that re-arms spends one request of the budget, and no firing adds to it |
| `Retransmit.MaximumIsAFloor` | src/stun/stun_client_udp.cpp:457-471 | the configured maximum is a lower bound: the wait is the maximum where the planned one (Rm times the initial timeout for the last planned request, else twice the last wait) does not exceed it, else the planned one |
| `Client.InsertAt` | src/stun/stun_client_udp.cpp:398-406 | a timer is queued behind exactly those that come before it |
| `Client.FireSpends` | src/stun/stun_client_udp.cpp:80-97 | every turn of the timer loop lowers the remaining work, so `next` terminates |
| `Client.AllocateHandle` | src/stun/stun_client_udp.cpp:354-360 | the handle is not in use and not below the counter |
| `ClientInvariant.StartInv` | src/stun/stun_client_udp.cpp:160-207 | `create` keeps the client invariant |
| `ClientInvariant.RespondInv` | src/stun/stun_client_udp.cpp:50-78 | `response` keeps the client invariant |
| `ClientInvariant.NextInv` | src/stun/stun_client_udp.cpp:80-113 | `next` keeps the client invariant: both maps mutually inverse, and each live transaction has exactly one timer or a queued timeout, never both |
| `ClientInvariant.IdleMeansDone` | src/stun/stun_client_udp.cpp:109-111 | Idle is returned only with no live transaction |
| `ClientInvariant.SleepReachesNoTimer` | src/stun/stun_client_udp.cpp:112-113 | a Sleep is positive, ends exactly when the first timer is due, and so reaches no later than any live transaction's timer |
| `ClientRuns.RunInv` | src/stun/stun_client_udp.cpp:50-207 | the invariant holds after every run, and nothing handed out finishes a live transaction |
| `ClientRuns.AtMostOnceIffSafe` | src/stun/stun_client_udp.cpp:80-113 | in every run, nothing follows a transaction's outcome (no second outcome, no request) if and only if no response or timer hits a transaction whose outcome is queued |
| `Outcomes.NoneForgotten` | src/stun/stun_client_udp.cpp:80-113 | in every run a started transaction is live exactly until its outcome has been handed out: none is silently forgotten |
| `Outcomes.SafeOnceEach` | src/stun/stun_client_udp.cpp:80-113 | where every call is safe, each started transaction has had no outcome while live and exactly one once gone |
| `Outcomes.IdleOnceEach` | src/stun/stun_client_udp.cpp:109-111 | where every call is safe and the last returned Idle, every transaction ever started has had exactly one outcome |
| `Discipline.DisciplinedExactlyOnce` | src/stun/stun_client_udp.cpp:80-113 | if responses are given only to a quiet client and drained at the same instant, each started transaction has had no outcome while live, exactly one once gone, and nothing after it |
| `Discipline.DisciplinedIdle` | src/stun/stun_client_udp.cpp:80-113 | when such a run ends with Idle, every transaction ever started has had exactly one outcome |
| `Discipline.NoResponsesExactlyOnce` | src/stun/stun_client_udp.cpp:80-113 | with only `create` and `next` both halves hold with no discipline |
| `Discipline.DuplicateFinishesTwice` | src/stun/stun_client_udp.cpp:209-261 | two copies of a response, back to back, finish a transaction twice |
| `Discipline.RaceGoesOnAfterOutcome` | src/stun/stun_client_udp.cpp:80-97 | a response given at the instant its timer is due lets the timer fire behind the queued outcome |
| `Callers.RestingMeansQuiet` | src/stun/stun_client_udp.cpp:98-113 | when `next` returns Sleep or Idle nothing is queued or due, and a Sleep ends at the first timer |
| `Callers.CarefulExactlyOnce` | src/stun/stun_client_udp.cpp:80-113 | exactly one outcome for every transaction, under a discipline stated over calls and what they return alone |
| `Callers.PunctualSchedule` | src/stun/stun_client_udp.cpp:80-113 | the exact schedule, for a caller disciplined over calls and returned effects |
| `Callers.RefusedIsUnanswered` | src/stun/stun_client_udp.cpp:50-78 | a transaction is unanswered if every response carrying its id was refused with an error |
| `Callers.RefusedSchedule` | src/stun/stun_client_udp.cpp:50-113 | the exact schedule from calls, returned effects, errors and the returned handle alone |
| `Provenance.LiveFromCreate` | src/stun/stun_client_udp.cpp:160-207 | in every run a live transaction holds the id, bytes, path and credentials of the call that started it: they never change |
| `Provenance.CreatedOnce` | src/stun/stun_client_udp.cpp:354-360 | in every run a handle is given out once |
| `Provenance.SendsTheRequest` | src/stun/stun_client_udp.cpp:80-97 | in every run every request handed out or queued, first or repeated, is the one the call that created its transaction gave |
| `Provenance.OutcomeFromResponse` | src/stun/stun_client_udp.cpp:209-352 | in every run every outcome but a timeout is what some response said about a then live transaction |
| `Provenance.OnlySignedCounts` | src/stun/stun_client_udp.cpp:130-158 | in every run a transaction started with credentials is affected only by responses to it that its own key signed, or made to fail by a permitted unsigned redirect |
| `Provenance.AnsweredExact` | src/stun/stun_client_udp.cpp:50-158 | in every run a response is accepted for a transaction exactly when the transaction is live and the response is given or parses to a message with the id of its request that is signed by its key, or unsigned and a redirect the settings allow, or any if it has no credentials |
| `Provenance.ToldExact` | src/stun/stun_client_udp.cpp:115-158 | in every run, for a message with the id of a live transaction's request: no error exactly when it is trusted, else digest_is_not_valid, no_integrity_attribute_in_response or the hash's error, each exactly for its reason, and nothing changes |
| `Provenance.SuccessIsSigned` | src/stun/stun_client_udp.cpp:50-78 | every success handed out or queued for such a transaction comes from a response to its id that its key signed |
| `Provenance.LessonIsSigned` | src/stun/stun_client_udp.cpp:223-235 | every lesson of the timeout calculator comes from a response, signed if its transaction had credentials |
| `Provenance.RetryIsSigned` | src/stun/stun_client_udp.cpp:333-348 | every retry of such a transaction was granted on a response its key signed |
| `Provenance.RetryIsServerError` | src/stun/stun_client_udp.cpp:333-348 | every retry was granted on a 5xx response, and only below the configured number |
| `Effort.BoundedEffort` | src/stun/stun_client_udp.cpp:420-471 | in every run a transaction is sent at most as often as planned plus twice per accepted 5xx, of which there are at most as many as configured |
| `Witnesses.BoundReached` | src/stun/stun_client_udp.cpp:437-451 | a run that reaches the bound: one planned request, one 5xx, three requests, as the stale timer resends first |
| `Effort.RunEffort` | src/stun/stun_client_udp.cpp:82-97 | the account of sends, remaining budget and stale timer holds in every run |
| `Effort.KarnsRule` | src/stun/stun_client_udp.cpp:223-235 | in every run only never-retransmitted transactions supply samples |
| `Effort.CalculatorFollowsLessons` | src/stun/stun_client_udp.cpp:209-235 | the calculator's state is the fold of exactly what responses taught it |
| `Estimates.StartsWithEstimate` | src/stun/stun_client_udp.cpp:362-372 | in every run with calls in time every transaction starts with the estimate over what responses accepted before its creation taught about its path |
| `Estimates.StartsNearExact` | src/stun/stun_client_udp.cpp:362-372 | and that estimate is within 47 microseconds of the timeout of RFC 6298 over the same lessons without rounding |
| `Accounting.CountersAgree` | src/stun/stun_client_udp.cpp:80-261 | in every run started counts the transactions, started plus retransmits the requests, and success the successful outcomes, handed out or queued |
| `Schedule.ScheduleKept` | src/stun/stun_client_udp.cpp:408-471 | when sleeps are honoured, for every setting and whatever responses arrive: the requests of a transaction without accepted 5xx are at most Rc and went out after the waits before them, and a timeout came after all of them and the last wait |
| `Timetable.ScheduleExact` | src/stun/stun_client_udp.cpp:408-471 | for every setting and every moment the client is quiet, for every transaction no response was accepted for: exactly the requests due by now have gone out, each after the waits before it; it is live exactly until its timeout is due; the timeout and no other outcome has been handed out at its time; without a maximum these are the times of RFC 8489 |
| `Schedule.SendsMatchRfc` | src/stun/stun_client_udp.cpp:457-471 | without a configured maximum request k goes out (2^k - 1) RTO after creation |
| `Timetable.RanOut` | src/stun/stun_client_udp.cpp:408-471 | once the time has run out, all Rc requests and the timeout have been handed out, as equalities |
| `Timetable.UnansweredTimesOut` | src/stun/stun_client_udp.cpp:80-97 | a transaction no response was accepted for has no outcome but its timeout |
| `Timetable.MaximumExact` | src/stun/stun_client_udp.cpp:457-471 | in every run, the waits of an unanswered transaction stay within the configured maximum m if and only if RTO is within m, the last wait Rm RTO is (two or more requests), 2 RTO is (three or more), and there are at most three requests or m is zero |
| `Timetable.WaitsWithin` | src/stun/stun_client_udp.cpp:457-471 | the same of the planned waits, for every setting and timeout |
| `Waits.WaitClosed` | src/stun/stun_client_udp.cpp:457-471 | for every setting, timeout and k, also beyond the plan: without a maximum the wait after request k is 2^k RTO up to the last planned request, then Rm RTO 2^(k-Rc+1); with one, the larger of that and the maximum doubled as often |
| `Waits.LiveWait` | src/stun/stun_client_udp.cpp:420-471 | in every run, however many 5xx responses were accepted, every live transaction's wait is that closed form in the number of its rearmings |
| `Waits.TimerExact` | src/stun/stun_client_udp.cpp:80-97 | in every run, every timer that fires in a call at any time: before the deadline the request is repeated and the timer set to the deadline; at or after it the request is sent and the deadline set to now plus the closed form, exactly while rearmings are fewer than Rc - 1 plus the 5xx accepted; else the timeout is queued |
| `Waits.DrainIsFired` | src/stun/stun_client_udp.cpp:80-97 | a call fires timers one after another, while one is due, until none is |
| `Witnesses.ThirdWait` | src/stun/stun_client_udp.cpp:457-471 | with four or more requests the third wait is twice the second, which is at least the maximum |
| `Witnesses.MaximumExceeded` | src/stun/stun_client_udp.cpp:465-469 | a run that sleeps a second under a maximum of half a second |
| `Witnesses.EightSecondsDoubled` | src/stun/stun_client_udp.cpp:465-469 | a run that keeps a maximum of eight seconds in its second wait and doubles it in its third |
| `Schedule.TimeoutMatchesRfc` | src/stun/stun_client_udp.cpp:457-471 | without a maximum the timeout comes (2^(Rc-1) - 1 + Rm) RTO after creation exactly when Rc is at least 2, Rm is 1 or RTO is 0 |
| `Witnesses.SingleRequestTimesOut` | src/stun/stun_client_udp.cpp:457-471 | a run with Rc = 1 that fails after one plain RTO, whatever Rm |
| `Responses.SuccessExact` | src/stun/stun_client_udp.cpp:209-261 | a success response succeeds exactly with the address it reports, its message and, if the request was sent once, the time since then; fails exactly when it has none or is not understood; and teaches exactly when understood |
| `Responses.ErrorExact` | src/stun/stun_client_udp.cpp:263-352 | which error responses retry, are discarded, or fail the transaction, and with which reason, in both directions |
| `Responses.AcceptExact` | src/stun/stun_client_udp.cpp:50-158 | in every state the invariant allows, a response is accepted for a transaction exactly when it is given or parses, its id belongs to the live transaction, and it is trusted: no credentials, signed by the key, or an unsigned redirect the settings allow |
| `Responses.RefusedExact` | src/stun/stun_client_udp.cpp:50-158 | and refused with each error exactly for the reason it names: unparsable, no such transaction, wrong digest, no digest, hash failure |
| `Responses.HeardExact` | src/stun/stun_client_udp.cpp:50-78 | what `response` returns for a message with the id of a live transaction, and that a refused one changes nothing |
| `Responses.RedirectFollowed` | src/stun/stun_client_udp.cpp:288-302 | a trusted redirect naming its server, signed or not, queues the failure with that server, returns no error and changes nothing else |
| `ClientUdp.DrawId` | src/stun/stun_client_udp.hpp:159-169 | the first drawn id that is not in use; none exactly when every draw is in use and the loop would go on |
| `ClientUdp.FindHandle` | src/stun/stun_client_udp.cpp:354-360 | the loop finds the handle the specification allocates, and terminates |
| `ClientUdp.UdpClient.Create` | src/stun/stun_client_udp.hpp:159-169 | the object takes the create step of the machine under the first unused id with the built request, fails exactly when signing fails, and changes nothing then or while no unused id is drawn |
| `ClientUdp.UdpClient.Start` | src/stun/stun_client_udp.cpp:182-205 | the field updates amount to starting the transaction |
| `ClientUdp.UdpClient.FireDue` | src/stun/stun_client_udp.cpp:80-97 | the loop over due timers amounts to draining them |
| `ClientUdp.UdpClient.Next` | src/stun/stun_client_udp.cpp:80-113 | the object takes the poll step of the machine and returns its effect |
| `ClientUdp.UdpClient.Response` | src/stun/stun_client_udp.cpp:50-78 | the object takes the receive step of the machine and returns its error |
| `ClientUdp.UdpClient.KeepsInvariant` | src/stun/stun_client_udp.hpp:141-153 | whatever was called on it, the object satisfies the client invariant |
| `Requests.RequestHolds` | src/stun/stun_client_udp.cpp:160-180 | the request carries exactly the first attribute of each type the caller gave, the user name of the credentials unless the caller gave one, a wish for a fingerprint if configured, and the caller's unknown attributes in order |
| `Server.Stateless.AddUser` | src/stun/stun_server_stateless.cpp:60-62 | a name already registered keeps its password |
| `ServerAnswers.AnswerExact` | src/stun/stun_server_stateless.cpp:49-166 | for every datagram: ignored without a message exactly when it does not parse, ignored with it when it is no request; of requests, success exactly for an understood binding request that is anonymous or signed by a registered user, signed likewise, its attributes exactly the endpoint seen (plain for an old client, else masked) and a fingerprint if configured; 420 with the types, 400 and 401 exactly where section 9.1.3 of RFC 8489 asks for them, holding nothing else; id and method are echoed |
| `ServerAnswers.AnswerReadable` | src/stun/stun_server_stateless.cpp:17-166 | every answer, built in any order with the returned integrity, is read back faithfully exactly when the request was not an RFC 3489 one |
| `ServerAnswers.OldClientUnreadable` | src/stun/stun_server_stateless.cpp:128-166 | every bare binding request of an RFC 3489 client is answered with success, unreadably |
| `EndToEnd.AddressComesBack` | src/stun/stun_server_stateless.cpp:49-166 | for every endpoint, 12-byte id, registered or no credentials, fingerprint settings and map orders, a live transaction's request with a body under 2^16 bytes, processed by the server and answered, makes the client succeed with exactly that endpoint |
| `EndToEnd.RunComesBack` | src/stun/stun_client_udp.cpp:160-207 | the same for every transaction still live in any run that was created without caller attributes, from what its creating call was given |
| `EndToEnd.ObjectComesBack` | src/stun/stun_client_udp.hpp:141-169 | the same for the client object and the transactions its `create` started |
| `EndToEnd.ClientConcludes` | src/stun/stun_client_udp.cpp:50-78 | the whole new client state after a conclusive response |
| `Timepoint.AdvanceMinus` | src/clock/clock_timepoint.hpp:84-101 | advancing and subtracting undo each other for all points and signed 64-bit durations |
| `Timepoint.HalfRange` | src/clock/clock_timepoint.hpp:95-109 | points less than half the range apart compare and subtract like the integers they stand for |
| `Timepoint.AfterExact` | src/clock/clock_timepoint.hpp:103-109 | two points are each after the other exactly at half the range, and neither exactly when equal |
| `Timepoint.OrderExact` | src/stun/stun_client_udp.cpp:398-406 | the comparator is a strict total order on a set of timers if and only if they all lie within half the range from a common start |
| `Timepoint.ComparatorIsOrder` | src/stun/stun_client_udp.cpp:398-406 | on timers of the unbounded model within half the range it is the integer order, and wrapping keeps different timers apart |
| `WrappedClient.RunSame` | src/stun/stun_client_udp.cpp:50-207 | for every run whose times stay within a quarter of the range from now at every call, the client on wrapping counters takes the same steps as the client with unbounded time and returns the same effects, errors and handles |
| `WrappedClient.StepSame` | src/stun/stun_client_udp.cpp:50-207 | the same for every single call |
| `WrappedClient.RingsOutUnique` | src/stun/stun_client_udp.cpp:80-97 | where the timer loop on wrapping counters ends is determined |
| `Timepoint.ComparatorCycles` | src/stun/stun_client_udp.cpp:398-406 | without that bound three timers can form a cycle |
| `Timepoint.AdvanceFrom` | src/clock/clock_timepoint.hpp:77-82 | for units finer than a microsecond, whole microseconds are advanced and the remainder below one is left |
| `Timepoint.AdvanceFromCoarse` | src/clock/clock_timepoint.hpp:77-82 | for coarser units, the time moves by the product modulo 2^64 and the remainder is the signed residue of what its truncated quotient leaves |
| `Timepoint.CoarseConserves` | src/clock/clock_timepoint.hpp:77-82 | for coarser units, advance and remainder add up exactly when the product modulo 2^64 is below half the range and a whole number of units, and the remainder did not wrap |
| `Timepoint.CoarseWitnesses` | src/clock/clock_timepoint.hpp:77-82 | a product that wraps and loses nothing, and one that does not wrap and loses |
| `Timepoint.AdvanceFromConserves` | src/clock/clock_timepoint.hpp:77-82 | advance and remainder add up to the duration exactly when it is not negative or is in microseconds |
| `Fqdn.ParseLabel` | src/net/net_fqdn.cpp:43-67 | the scan finds the longest label at the start, and fails exactly when there is none |
| `Fqdn.ParseSubdomain` | src/net/net_fqdn.cpp:69-103 | the loop finds the longest name at the start, and fails exactly when there is none |
| `Fqdn.Parse` | src/net/net_fqdn.cpp:111-119 | value followed by rest is the input, and the value is the longest name |
| `Fqdn.FromString` | src/net/net_fqdn.cpp:121-130 | a string is taken exactly when it is labels joined by dots with an optional final dot, and then unchanged; a letter is asked for exactly when not even a prefix is a name |
| `Rtp.ReadCsrcs` | src/rtp/rtp_packet.cpp:42-59 | the loop reads all sources exactly when they lie in the packet |
| `Rtp.ReadTail` | src/rtp/rtp_packet.cpp:77-159 | extension, payload and padding intervals, with the first fault otherwise; the payload offset never exceeds the packet |
| `Rtp.Parse` | src/rtp/rtp_packet.cpp:18-171 | the result describes the packet's parts or names the first fault, and the counters move accordingly |
| `Rtp.PartsTile` | src/rtp/rtp_packet.cpp:18-171 | the parts found are well formed and laid out again give the packet |
| `Rtp.AcceptedExact` | src/rtp/rtp_packet.cpp:18-171 | the packets accepted are exactly the layouts of well-formed parts with a known clock, and the parts are unique |
| `Rtp.CountersBalance` | src/rtp/rtp_packet.hpp:21-31 | over every run of calls, each with its own payload map, each counter is the number of calls that met its fault, each call raises exactly one of success and error, error is the sum of the specific counters, and the payload type counter never moves |
| `Rtp.PaddingPresent` | src/rtp/rtp_packet.cpp:126-157 | an accepted padded packet has padding exactly when its last byte is not zero |
| `Rtp.PaddedWithoutPadding` | src/rtp/rtp_packet.cpp:126-157 | a padded packet without padding that is accepted |
| `StringView.Split` | src/util/util_string_view.hpp:46-55 | nothing exactly when the separator is absent, else the parts around its first occurrence |
| `StringView.SplitAllLoop` | src/util/util_string_view.hpp:57-70 | the loop terminates with the tokens in order |
| `StringView.JoinLoop` | src/util/util_string_view.hpp:72-79 | the loop puts the separator between tokens only |
| `StringView.SplitThenJoin` | src/util/util_string_view.hpp:57-79 | no token contains the separator, and joining gives the string back less one trailing separator |
| `StringView.JoinThenSplit` | src/util/util_string_view.hpp:57-79 | splitting undoes joining exactly when no token contains the separator and the last is not empty |

## Left out

- node/ bindings, examples and build files: glue without logic of their own.
- Internals of SHA-1 and MD5 and the OpenSSL wrappers: the hash is an arbitrary function.
- Text forms of IP addresses: addresses are 4 or 16 bytes.
- Result and Maybe sugar, tagged types, error categories and messages: thin wrappers without logic of their own.
- Murmur and dynamic hashing: they affect only bucket placement.
- Object lifetime, moves and dangling views: the model holds values.
- The counters of the STUN parser, and the client counters other than started, success and retransmits: a truncated MAPPED-ADDRESS is refused without being counted, so no conservation law holds.
- ICE candidates and preferences: small finite domains.
- The stateful STUN server: its source is not part of this model.
- 32-bit handle values: handles are naturals that are never reused, which is the same for fewer than 2^32 creates.
- Overflow of 64-bit durations and of the `unsigned` counters inside the client: integers are unbounded there; wrapping of time points is in `WrappedClient`.
- Per-transaction records and their retransmission algorithm: values replaced in the transaction map, not objects of their own, so aliasing of a transaction reference is not captured.
- ClientUdp.DrawId: the random device is a finite sequence of draws; that a device always yields an unused id in the end is not stated.
- Integrity.IntegrityAgrees: speaks of messages built by this library; received ones are in `RepeatedIntegrity.ReceivedChecked` and `RepeatedIntegrity.CoveredExact`.
- WrappedClient.RunSame: asks for all times to lie within a quarter of the range, some 146,000 years, from now.
- EndToEnd.AddressComesBack: is about requests without caller attributes, as the caller's own could contain an unknown comprehension-required one, and with a body under 2^16 bytes, which only a long user name exceeds.
- RtoCalculator.Calculator.NewRtt: requires a non-negative history duration. With a negative one the entry being updated is always evicted (`Rto.UpdatedStays`) and the source writes through a dangling reference.
- ClientUdp.UdpClient.Response: requires a non-negative history duration for the same reason.
