# Verified model of the BACnet/IP REST proxy

This project models the parts of the proxy whose correctness is hard to see from
one function, and proves what they are for:

- the **wire codec** (`internal/bacnet`): tag headers, minimal integers, bit
  strings, text, nested values, the services, and the APDU, NPDU and BVLC layers.
  Encoder and decoder are modelled separately and shown to be inverse exactly on
  a stated domain;
- the **transactions** of the BACnet client: invoke-ID allocation over a wrapping
  8-bit counter and reply matching, as a step system over every interleaving of
  calls, sends, arriving replies (lost, duplicated, delayed or reordered as the
  network pleases), timeouts and completions;
- the **shared key fetch** of the OIDC verifier, over any monotone clock;
- **device enumeration**: reading the object-list whole or in index chunks, and
  metadata by halving chunks, against a fixed truthful device on a path where any
  request may fail in any way and the context may expire at any moment;
- the **variable cache**: concurrent getters and one refresher on shared entries;
- the **rule engine** and the **visibility filter** built on it and on the cache.

Specification functions say what an operation computes; methods and classes in
the source's own imperative form (cursors, growing buffers, in-place sub-ranges of
one array, mutable fields, loops) are proved to compute exactly that; lemmas prove
the properties of the specification functions, over all inputs or all runs.

## Layout

| file | models |
|---|---|
| `Octets.dfy` | octets, machine integers, big-endian numbers, results |
| `Text.dfy`, `BitStrings.dfy`, `Integers.dfy`, `Tag.dfy`, `Values.dfy`, `Nested.dfy` | `tag.go`, `value.go` |
| `Repaired.dfy` | the value decoder of `value.go` with a repaired marker test |
| `Services.dfy`, `ReadMultiple.dfy`, `ReadMultipleAck.dfy`, `Discovery.dfy` | `services.go`, `errors.go` |
| `Stack.dfy` | `apdu.go`, `npdu.go`, `bvlc.go` |
| `Layouts.dfy` | the octets of all of these, written out |
| `InvokeIds.dfy`, `Transactions.dfy`, `Client.dfy` | `client.go` |
| `KeyFetch.dfy` | `oidc.go` |
| `Metadata.dfy`, `Enumeration.dfy`, `Enumerator.dfy`, `Cache.dfy` | `varcache.go` |
| `Authz.dfy`, `Visibility.dfy` | `engine.go`, `types.go`, `middleware.go`, `handlers.go` |

`dafny verify dfyconfig.toml` checks everything.

## What the code does not do

Some claims one would expect of the code are false of it. The model keeps the code as
it is and proves the exact condition under which each claim holds:

- Markers are recognised by the decoded length field, so a context-tagged primitive
  of exactly 6 or 7 octets reads back as an opening or closing tag
  (`Tag.MarkerConfusion`, `Nested.RoundTripExactly`,
  `Nested.SixOctetContextPrimitiveFails`). With the test of clause 20.2.1.3.2 of
  ASHRAE 135 instead, values with context data of every length survive
  (`Repaired.RoundTripExactly`), and nothing that survives today is lost
  (`Repaired.RepairLosesNothing`).
- The receive loop compares a reply's service with the pending request's before it
  tests that there is one (`internal/bacnet/client.go:126`), so it dereferences nil
  on an acknowledgement or error whose invoke ID no call in flight holds -- a
  duplicate or a late one (`Transactions.SurvivesUnlessUnsolicited`,
  `Transactions.DuplicateAckCrashes`). The transaction system and its theorems take
  the step with the test made first; wherever the loop as written survives, the two
  take the same step. So that such a reply is ignored is true of the model only.
- The 32-bit counter of the chunked object-list read wraps exactly for lists of
  2^32 - 45 elements or more, and a reported length of 2^32 or more is truncated
  (`Enumeration.ListIsExactIff`). For the first four such lengths nearly the whole
  list comes back twice (`Enumeration.WrongListAtTheLimit`); for the largest 32-bit
  length the loop cannot end without an error.
- A packet longer than 65535 octets is encoded with a truncated length, which the
  decoder refuses (`Stack.UnicastRoundTrip`).
- WriteProperty requests are encoded with any value but decoded with a single
  application-tagged one (`Services.WritePropertyRoundTrip`), and a Who-Is with one
  limit is sent without any (`Discovery.WhoIsRoundTrip`).

## Model

The methods of `Client.Client`, `KeyFetch.Verifier` and `Cache.VarCache` are the
source's atomic sections in its own form; apart from the allocation loop each is one
step of its step system. What these systems guarantee is what the rows about runs
state.

| member | source | states |
|---|---|---|
| Integers.MinUnsignedExact | internal/bacnet/value.go:480-486 | decoding inverts the minimal unsigned encoding of every 64-bit value, which has 1 to 8 octets |
| Integers.MinUnsignedShortest | internal/bacnet/tag.go:156-165 | no shorter non-empty big-endian string denotes the value (clause 20.2.4 of ASHRAE 135) |
| Integers.MinSignedExact | internal/bacnet/value.go:488-497 | the minimal signed encoding denotes the value in two's complement and decodes to it, for every 64-bit value |
| Integers.MinSignedShortest | internal/bacnet/tag.go:167-183 | no shorter non-empty two's-complement string denotes the value (clause 20.2.5 of ASHRAE 135) |
| Integers.MinUnsignedBytes | internal/bacnet/tag.go:157-165 | the index loop over the 8-octet array returns the big-endian form without leading zeros |
| Integers.MinSignedBytes | internal/bacnet/tag.go:168-183 | the sign-aware loop returns the 8-octet form without redundant sign octets |
| Integers.DecodeUnsignedData | internal/bacnet/value.go:480-486 | the shift loop computes the big-endian number modulo 2^64, for data of any length |
| Integers.DecodeSignedData | internal/bacnet/value.go:488-497 | the sign-extending loop computes the two's-complement number wrapped to 64 bits |
| BitStrings.BitStringRoundTrip | internal/bacnet/value.go:220-248 | every bit string survives packing and unpacking |
| BitStrings.EncodeBitStringData | internal/bacnet/value.go:220-231 | setting bits in a zeroed array yields the unused-bits octet and the packed octets |
| BitStrings.DecodeBitStringData | internal/bacnet/value.go:233-248 | reading bit by bit inverts the packing, or reports the empty or inconsistent string |
| Text.ToValidIsValid | internal/bacnet/value.go:511-512 | repaired text is valid UTF-8 and at most three times as long |
| Text.ToValidIdentity | internal/bacnet/value.go:511-512 | repair changes nothing exactly when the text is valid |
| Text.RepairKeepsValid | internal/bacnet/value.go:511-512 | repair keeps a valid beginning as it is and goes on after it |
| Text.RepairReplacesRun | internal/bacnet/value.go:511-512 | a whole run of octets that start no code point becomes one U+FFFD, and repair goes on after it |
| Text.EncodeRunesIsValid | internal/bacnet/value.go:513-536 | any rune sequence, surrogates and out-of-range ones included, becomes valid UTF-8 |
| Text.RunesOfEncoded | internal/bacnet/value.go:513-536 | a string made of code points reads, by a UTF-8 reader of its own, as those code points, with U+FFFD for surrogates and numbers out of range |
| Text.ValidIffEncoded | internal/bacnet/value.go:509-540 | text is valid if and only if it is the encoding of the code points it reads as, all of them neither surrogates nor out of range |
| Text.UnitsDecode | internal/bacnet/value.go:519-527 | decoding the UTF-16 form of any code points gives them back, pairs of surrogates combined and lone ones replaced |
| Text.UnitsAreAForm | internal/bacnet/value.go:519-527 | every sequence of 16-bit units is such a form |
| Values.ObjectIDRoundTrip | internal/bacnet/value.go:305-311 | an object identifier comes back with its type modulo 2^10 and its instance modulo 2^22 |
| Values.PrimitiveRoundTrip | internal/bacnet/value.go:316-392 | every primitive whose fields fit their wire fields decodes to itself, consuming exactly its encoding, whatever follows |
| Values.DecodedTextIsValid | internal/bacnet/value.go:509-540 | text decoded from any supported character set is valid UTF-8, at most four times as long |
| Values.UCS4Says | internal/bacnet/value.go:528-536 | a big-endian UCS-4 string of any 32-bit numbers decodes to text whose code points they are, with U+FFFD for those that are none |
| Values.UTF16Says | internal/bacnet/value.go:519-527 | a big-endian UTF-16 string decodes to text of its code points, surrogate pairs and lone surrogates included |
| Values.Latin1Says | internal/bacnet/value.go:513-518 | an ISO 8859-1 string decodes to text whose code points are its octets |
| Values.UTF8Says | internal/bacnet/value.go:511-512 | UTF-8 data keeps its valid beginning, gets one U+FFFD for the bad run after it, and so on |
| Values.DataIsRefused | internal/bacnet/value.go:333-391 | exactly which data octets are refused: a wrong length for the type, an unsupported character set or a broken length for it, too many unused bits, an unknown type |
| Values.NumbersAreCut | internal/bacnet/value.go:333-391 | numbers of any length: unsigned ones keep their low 64 bits, enumerated ones 32, signed ones wrap by a multiple of 2^64 |
| Values.DecodedDataIsOk | internal/bacnet/value.go:333-391 | whatever data is accepted gives a value of that tag in the round-trip domain, with bounded re-encoding |
| Values.AppendContextValue | internal/bacnet/value.go:152-218 | the encoding switch, grown onto the buffer, appends exactly the primitive's header and data |
| Tag.DataHeaderRoundTrip | internal/bacnet/tag.go:38-75 | every tag number, class and 32-bit length is read back, with the header's own size, whatever follows |
| Tag.MarkerRoundTrip | internal/bacnet/tag.go:86-91 | opening and closing tags of every number are read back as such |
| Tag.MarkerConfusion | internal/bacnet/tag.go:101-102 | a data header is taken for a marker if and only if it is of context class with length 6 or 7 |
| Tag.RepairedMarkerTest | internal/bacnet/tag.go:101-102 | of headers: keyed on the first octet instead, no data header is taken for a marker and every marker is |
| Repaired.RoundTripExactly | internal/bacnet/value.go:432-478 | with the marker test repaired, a list is read back from its encoding if and only if its fields fit and it nests within the limit, whatever the lengths of context data |
| Repaired.RepairLosesNothing | internal/bacnet/value.go:432-478 | every list that the decoder as it is reads back from its encoding, the repaired one reads back |
| Tag.ReadHeaderPrefix | internal/bacnet/tag.go:105-154 | an accepted header is determined by its own octets |
| Tag.DataHeaderShortest | internal/bacnet/tag.go:105-154 | no accepted data header for the same tag and length is shorter than the encoder's |
| Tag.HeaderMeaning | internal/bacnet/tag.go:105-154 | the decoder accepts exactly the header forms of clause 20.2.1 of ASHRAE 135, minimal or not, and reads number, class and length from each |
| Tag.AppendTagHeader | internal/bacnet/tag.go:38-75 | building the first octet and growing the buffer appends exactly the specified header |
| Tag.AppendMarkerTag | internal/bacnet/tag.go:86-91 | appends exactly the specified marker |
| Tag.DecodeTagHeader | internal/bacnet/tag.go:105-154 | the cursor reads what the specification reads, and fails where it fails |
| Nested.RunStops | internal/bacnet/value.go:432-478 | on success the consumed count is within the input, and the remainder is empty or starts with a closing tag |
| Nested.RunRoundTrip | internal/bacnet/value.go:134-147 | every list in the domain, nested within the limit, is read back from its encoding followed by nothing or by a closing tag |
| Nested.TooDeepIsRefused | internal/bacnet/value.go:450-453 | well-formed values nested deeper than 16 minus the starting depth end in the nesting error |
| Nested.RunInDomain | internal/bacnet/value.go:432-478 | whatever is decoded is in the round-trip domain, within the nesting limit, and re-encodes to at most 16 times the octets |
| Nested.RoundTripExactly | internal/bacnet/value.go:134-478 | a list is read back from its encoding if and only if its fields fit, no context primitive has 6 or 7 octets, and it nests within the limit |
| Nested.Normalises | internal/bacnet/value.go:428-478 | decode after encode after decode equals decode, on every octet string of datagram size and far beyond |
| Nested.SixOctetContextPrimitiveFails | internal/bacnet/value.go:450-465 | a six-octet context primitive is not read back |
| Nested.AppendValue | internal/bacnet/value.go:134-147 | the recursive encoder, growing a buffer, appends exactly the value's octets |
| Nested.AppendValues | internal/bacnet/services.go:143-145 | the encoders' value loops append exactly the run's octets |
| Nested.DecodeNestedValues | internal/bacnet/value.go:432-478 | the cursor loop returns the specified values, count or error, for every octet string and depth |
| Nested.DecodeItem | internal/bacnet/value.go:440-475 | one turn of the loop reads the specified item |
| Services.ReadPropertyRequestRoundTrip | internal/bacnet/services.go:89-126 | a ReadProperty request survives exactly when its object identifier fits its wire fields |
| Services.ReadPropertyACKRoundTrip | internal/bacnet/services.go:135-194 | a ReadProperty acknowledgement survives exactly when identifier, values and nesting are in the domain |
| Services.BuildReadPropertyACK | internal/bacnet/services.go:135-148 | the encoder's loop builds the specified acknowledgement |
| Services.ParseReadPropertyACK | internal/bacnet/services.go:150-194 | the cursor decoder reads what the specification reads, or fails alike |
| Services.WritePropertyRoundTrip | internal/bacnet/services.go:206-280 | a WriteProperty request survives exactly when its identifier fits and its value is a primitive in the domain |
| Services.ParseWritePropertyRequest | internal/bacnet/services.go:222-280 | the cursor decoder, with its optional index and priority, reads what the specification reads |
| Services.WideFields | internal/bacnet/services.go:22-48 | numbers wider than their fields are cut to their low 32 bits, a priority to 8, and data of 6 or 7 octets is refused as a marker |
| ReadMultiple.RequestRoundTrip | internal/bacnet/services.go:294-359 | a ReadPropertyMultiple request with any number of objects, properties and optional indexes survives exactly when its identifiers fit |
| ReadMultiple.EncodeReadPropertyMultipleRequest | internal/bacnet/services.go:294-308 | the nested loops build exactly the specified octets |
| ReadMultiple.DecodeReadPropertyMultipleRequest | internal/bacnet/services.go:310-359 | the nested cursor loops, peeking for closing tag 1 and index tag 1, read the specified request or fail alike |
| ReadMultipleAck.ErrorRoundTrip | internal/bacnet/errors.go:73-98 | an error survives, and its context-tagged form is read as the same error |
| ReadMultipleAck.DecodeErrorSequence | internal/bacnet/errors.go:82-98 | the two-turn loop reads the specified error or fails alike |
| ReadMultipleAck.AckRoundTrip | internal/bacnet/services.go:373-484 | an acknowledgement with any objects, indexes, nested values and per-property errors survives exactly when all of it is in the domain |
| ReadMultipleAck.EncodeReadPropertyMultipleACK | internal/bacnet/services.go:373-398 | the encoder's loops build exactly the specified octets |
| ReadMultipleAck.DecodeReadPropertyMultipleACK | internal/bacnet/services.go:400-484 | the decoder's loops read the specified results or fail alike |
| ReadMultipleAck.DecodeOutcome | internal/bacnet/services.go:440-471 | values or error, chosen by peeking at the opening tag, with one octet stepped over at the end |
| Discovery.WhoIsRoundTrip | internal/bacnet/services.go:493-521 | a Who-Is survives exactly when its limits come in pairs |
| Discovery.IAmRoundTrip | internal/bacnet/services.go:530-556 | an I-Am survives exactly when its device identifier fits its wire fields |
| Discovery.IAmMeaning | internal/bacnet/services.go:539-556 | exactly which octets are an I-Am and what it says: four application values, an object identifier first, a field of an unexpected kind zero |
| Discovery.WhoIsMeaning | internal/bacnet/services.go:503-521 | an accepted Who-Is has both limits, or is empty and has none |
| Discovery.DecodeApplicationValues | internal/bacnet/value.go:397-416 | the cursor reads application values up to the first context tag |
| Stack.APDURoundTrip | internal/bacnet/apdu.go:47-133 | every kind of APDU decodes to the fields it was built from |
| Stack.APDUMeaning | internal/bacnet/apdu.go:83-133 | by ranges of the first octet, exactly which octet strings are APDUs and which fields each gives |
| Stack.SegmentedIsRefused | internal/bacnet/apdu.go:90-110 | segmented requests and acknowledgements are refused whatever else they hold |
| Stack.RequestOctets | internal/bacnet/wire_test.go:11-22 | the octets of every confirmed request packet: BVLC, length, NPDU expecting a reply, no segments and 1476 octets accepted, ID, service, parameters |
| Stack.UnconfirmedOctets | internal/bacnet/wire_test.go:23-28 | the octets of every unconfirmed request packet, which expects no reply |
| Stack.StripNPDU | internal/bacnet/npdu.go:21-51 | the cursor over the optional address fields and hop count finds the specified APDU or error |
| Stack.RoutingIsTransparent | internal/bacnet/bvlc.go:26-55 | no Forwarded-NPDU origin and no destination, source or hop-count field changes the decoded APDU |
| Stack.RoutedOctets | internal/bacnet/wire_test.go:33-55 | the control bits and field order of routed NPDUs: source alone, destination alone, and both with the hop count last |
| Stack.AcceptedIsRouted | internal/bacnet/bvlc.go:26-55 | a packet is accepted if and only if it is a routed form of an accepted APDU within 65535 octets; network-layer messages never are |
| Stack.UnicastRoundTrip | internal/bacnet/bvlc.go:17-22 | an encoded packet decodes to its APDU exactly when it fits 65535 octets, and is otherwise refused for its length |
| Stack.RequestDelivered | internal/bacnet/apdu.go:47-52 | a confirmed request crosses all three layers unchanged |
| Stack.ReadMultipleRequestDelivered | internal/bacnet/services.go:294-359 | a ReadPropertyMultiple request crosses all four layers unchanged |
| Stack.WritePropertyDelivered | internal/bacnet/services.go:206-280 | a WriteProperty request crosses all four layers unchanged |
| Stack.ReadMultipleAckDelivered | internal/bacnet/services.go:373-484 | a ReadPropertyMultiple acknowledgement crosses all four layers unchanged, through any routers |
| Layouts.HeaderOctets | internal/bacnet/tag.go:38-75 | every data header octet by octet, with the thresholds 15 for numbers and 5, 254 and 65536 for lengths |
| Layouts.MarkerOctets | internal/bacnet/constructed_test.go:85-93 | opening and closing tags octet by octet, extended numbers included |
| Layouts.NumberOctets | internal/bacnet/value.go:152-218 | unsigned, enumerated and signed values of one octet and unsigned ones of two, octet by octet |
| Layouts.FixedOctets | internal/bacnet/value.go:152-218 | null, booleans, reals and doubles octet by octet |
| Layouts.DateOctets | internal/bacnet/value.go:250-263 | year less 1900, month, day, day of week, 255 for unspecified |
| Layouts.TimeOctets | internal/bacnet/value.go:282-290 | hour, minute, second, hundredth, 255 for unspecified |
| Layouts.ObjectIDOctets | internal/bacnet/value.go:152-218 | ten bits of type and 22 of instance in four octets |
| Layouts.OctetStringOctets | internal/bacnet/value.go:152-218 | octet strings up to 253 octets |
| Layouts.CharacterStringOctets | internal/bacnet/value.go:152-218 | character strings with character set 0 up to 252 octets |
| Layouts.BitOctets | internal/bacnet/value.go:220-231 | each octet of a bit string as the weights of its eight bits, most significant first |
| Layouts.ContextOctets | internal/bacnet/constructed_test.go:85-93 | context primitives and constructed values octet by octet |
| Layouts.TargetOctets | internal/bacnet/services.go:89-97 | object in context tag 0, property in 1, index in 2 |
| Layouts.PropertyAckOctets | internal/bacnet/services.go:135-148 | the values of an acknowledgement between opening and closing tag 3 |
| Layouts.WriteOctets | internal/bacnet/services.go:206-220 | the value between opening and closing tag 3, the priority in 4 |
| Layouts.ReadMultipleOctets | internal/bacnet/services.go:294-308 | object in context tag 0, its properties with their indexes between opening and closing tag 1 |
| Layouts.ReadMultipleAckOctets | internal/bacnet/errors_test.go:37-49 | each result with property 2 and index 3, its values in tag 4 or its error in tag 5 |
| Layouts.ErrorOctets | internal/bacnet/errors_test.go:12-20 | an Error APDU carries class and code as application-tagged enumerations |
| Layouts.WhoIsOctets | internal/bacnet/services.go:493-501 | the limits of a Who-Is in context tags 0 and 1 |
| Layouts.IAmOctets | internal/bacnet/services.go:530-537 | the four values of an I-Am in order |
| InvokeIds.AllocationFails | internal/bacnet/client.go:230-244 | allocation fails if and only if all 256 IDs are in use, and then leaves the counter where it was |
| Transactions.RunKeepsInv | internal/bacnet/client.go:111-269 | the transaction invariant holds in every reachable state |
| Transactions.PendingAreTheCallsInFlight | internal/bacnet/client.go:230-252 | the pending keys are exactly the distinct invoke IDs of the calls in flight |
| Transactions.RepliesAreTheCallsOwn | internal/bacnet/client.go:111-132 | a call takes at most one reply, only one with its ID, peer and (except Reject and Abort) service, sends at most retries + 1 times, and exactly so often before it times out |
| Transactions.AcceptedIffAwaited | internal/bacnet/client.go:116-132 | in every reachable state a packet is accepted for a call if and only if the call is in flight with its invoke ID and peer, and the packet is a Reject or Abort, or an acknowledgement or error of the same service; any other changes nothing |
| Transactions.AcceptedIsReturned | internal/bacnet/client.go:127-131 | an accepted reply, deposited in an empty channel and taken, is what the call returns, whether it came before or during the wait |
| Transactions.DepositedStays | internal/bacnet/client.go:128-131 | over every run a deposited reply stays in the channel until the call takes it and then is its outcome, whatever else arrives |
| Transactions.UnansweredTimesOut | internal/bacnet/client.go:255-268 | with the answers lost a call sends retries + 1 packets and only then times out |
| Transactions.AttemptEnds | internal/bacnet/client.go:255-266 | a failed send ends the call at once, a cancelled context its wait |
| Transactions.RefusedWhenAllInUse | internal/bacnet/client.go:230-244 | a request is refused if and only if calls in flight use all 256 IDs |
| Transactions.ReleaseRemovesOwnEntry | internal/bacnet/client.go:248-252 | completion removes the call's own pending entry and no other |
| Transactions.OutcomesAreFinal | internal/bacnet/client.go:255-268 | what a call returned never changes, whatever arrives later |
| Transactions.SurvivesUnlessUnsolicited | internal/bacnet/client.go:116-132 | in every reachable state the receive loop as written dereferences nil if and only if the packet is an acknowledgement or error whose invoke ID no call in flight holds; otherwise it takes the model's step |
| Transactions.DuplicateAckCrashes | internal/bacnet/client.go:119-127 | a reachable run ending in that crash: one call from start to end, then its acknowledgement once more |
| Transactions.ReuseDistance | internal/bacnet/client.go:230-252 | with p other requests pending at an allocation, at least 255 - p other allocations succeed before that ID is allocated again, over every interleaving |
| Client.Client.BeginRequest | internal/bacnet/client.go:230-247 | the allocation loop over counter and pending map is one step of the transaction system |
| Client.Client.SendRequest | internal/bacnet/client.go:255-258 | a send, successful or not, is one step |
| Client.Client.TakeReply | internal/bacnet/client.go:260-261 | taking the reply from the channel is one step |
| Client.Client.ExpireAttempt | internal/bacnet/client.go:262-268 | a timeout leads to the next attempt or, after the last, to the timeout error |
| Client.Client.CancelRequest | internal/bacnet/client.go:264-266 | an expired context ends the wait in one step |
| Client.Client.ReleaseID | internal/bacnet/client.go:248-252 | deleting the pending entry is one step |
| Client.Client.LookupAsWritten | internal/bacnet/client.go:116-127 | looking up and matching in the source's order crashes on exactly the unsolicited acknowledgements and errors, and is else the model's step |
| Client.Client.LookupReply | internal/bacnet/client.go:116-127 | the same with the pending entry tested first is one step |
| Client.Client.DepositReply | internal/bacnet/client.go:128-131 | the non-blocking deposit keeps a reply already there |
| KeyFetch.RunKeepsInv | internal/auth/oidc.go:101-158 | the key-fetch invariant holds in every reachable state |
| KeyFetch.FetchIsShared | internal/auth/oidc.go:97-158 | at most one fetch runs; the keys are those of the latest successful one; a waiter can go on or waits for the running fetch |
| KeyFetch.AskMeaning | internal/auth/oidc.go:101-123 | in every reachable state a kid of the latest successful fetch is answered at once with its key, and a fetch begins exactly when the keys are too old and one may; any other kid blocks its caller on the running fetch, begun now if one may |
| KeyFetch.WakeMeaning | internal/auth/oidc.go:123-128 | a caller that waited gets the key of its kid in the latest successful fetch, or is told there is none |
| KeyFetch.PrefetchMeaning | internal/auth/oidc.go:162-166 | prefetching begins a fetch exactly when none runs and the last began long enough ago |
| KeyFetch.EndMeaning | internal/auth/oidc.go:142-156 | a fetch that succeeds replaces the keys, one that fails keeps them; either way its channel is closed and none runs |
| KeyFetch.ClosedOnce | internal/auth/oidc.go:139-157 | every fetch's channel is closed once, at its own end |
| KeyFetch.FailuresKeepKeys | internal/auth/oidc.go:142-156 | over every run whose fetches all fail, the keys and their age stay |
| KeyFetch.RateLimit | internal/auth/oidc.go:131-141 | any window of length t holds at most t / minRefresh + 1 fetch starts |
| KeyFetch.Verifier.StartFetchLocked | internal/auth/oidc.go:134-158 | starting a fetch, or not, on the verifier's fields is the specified step |
| KeyFetch.Verifier.AskForKey | internal/auth/oidc.go:101-114 | the first critical section of key is the specified step |
| KeyFetch.Verifier.WakeUp | internal/auth/oidc.go:123-128 | the second critical section of key is the specified step |
| KeyFetch.Verifier.EndFetch | internal/auth/oidc.go:142-156 | the end of the fetching goroutine is the specified step |
| Metadata.ReadMetadataOutcome | internal/api/varcache.go:300-331 | under every pattern of failures, order and identifiers stay, every field is what it was or what a direct read gives, and an error means that the context had expired |
| Metadata.PathIndependence | internal/api/varcache.go:295-331 | whatever goes wrong with ReadPropertyMultiple and wherever chunks split, every variable of distinct objects ends up with its directly read name, unless the context expired and the chunk ends in an error |
| Metadata.CharStringSays | internal/api/varcache.go:396-401 | a name is the text of a property that is exactly one character string, and empty otherwise |
| Metadata.AnsweredAtOnce | internal/api/varcache.go:300-305 | one ReadPropertyMultiple that is answered gives all metadata of the chunk at the cost of one request |
| Metadata.AbortHalves | internal/api/varcache.go:306-315 | after an abort or a timeout the chunk is read as its two halves, the second not after an error of the first |
| Metadata.HalvesAreRead | internal/api/varcache.go:306-315 | a chunk too large for one reply, whose halves are not, is read in full with three requests |
| Metadata.NamesOneByOne | internal/api/varcache.go:316-330 | after any other failure, for a single object, or without the service, all names are read one by one; the service counts as missing from Reject 9 on and not before |
| Metadata.ReadMetadataRequests | internal/api/varcache.go:300-331 | a chunk of k objects costs at most 2k - 1 ReadPropertyMultiple requests and k single reads, and none of the former once the service is known to be missing |
| Enumeration.ReadRangeElements | internal/api/varcache.go:249-293 | under every pattern of failures a list that is returned consists of the chunks' passes in 32-bit arithmetic, the first of them without gap or overlap; one is returned when nothing fails |
| Enumeration.PassesLength | internal/api/varcache.go:250-251 | each wrap of the counter lists all but 50 of 2^32 elements once more |
| Enumeration.WrongListAtTheLimit | internal/api/varcache.go:250-251 | for 2^32 - 45 to 2^32 - 42 elements the list that comes back is elements 1 to 2^32 - 46 followed by elements 5 to the last |
| Enumeration.ListIsExactIff | internal/api/varcache.go:232-259 | under all failures the answer is the device's list exactly and in order, or an error, if and only if the list has fewer than 2^32 - 45 elements |
| Enumeration.ListSurvivesFailures | internal/api/varcache.go:232-293 | with fewer than 2^32 - 45 elements a whole read that aborts or times out ends in the device's list, if the context lives, single reads work, and each ReadPropertyMultiple works, aborts, times out or is rejected as unrecognized |
| Enumeration.OtherWholeFailures | internal/api/varcache.go:234-237 | every other failure of the whole read is returned |
| Enumeration.ChunkMeaning | internal/api/varcache.go:261-293 | a chunk is answered by one ReadPropertyMultiple; every failure that a smaller read cannot mend is returned; Reject 9 sends this and all later chunks to single reads, whose failures are returned |
| Enumeration.PublishedIsWellFormed | internal/api/varcache.go:200-210 | every published snapshot has only non-empty names, and its index agrees with its list |
| Enumeration.PublishedIsGenuine | internal/api/varcache.go:173-213 | a published snapshot carries only names that the device itself gives, in object-list order |
| Enumeration.PublishedIsWhole | internal/api/varcache.go:173-213 | however ReadPropertyMultiple fails and whenever the context expires, a load that publishes at all publishes exactly the objects of the list whose object-name is a non-empty string, as long as no single read fails after the list's |
| Enumeration.PublishedIsComplete | internal/api/varcache.go:173-213 | if the list is read whole or piecewise under the failures above, single reads work from then on and the context lives, a load does publish, and just these objects |
| Enumeration.ObjectsMembers | internal/api/varcache.go:187-192 | the objects enumerated are exactly the object identifiers in the list |
| Enumeration.ObjectsConcat | internal/api/varcache.go:187-192 | the objects of a list are those of its parts, in order |
| Enumeration.ObjectsOne | internal/api/varcache.go:187-192 | an object identifier lists its object, any other value none |
| Enumeration.LoadFailures | internal/api/varcache.go:173-198 | a load fails only with the failure of identifying the device or of its list, or when the context expired |
| Enumerator.Loader.NameOneByOne | internal/api/varcache.go:320-330 | the fallback loop fills the names of one sub-range in place and nothing outside it |
| Enumerator.Loader.Fill | internal/api/varcache.go:346-369 | the loops over results, through the identifier index, fill exactly the specified variables in place, for every truthful reply: in any order, split, repeated, or with unknown objects and properties |
| Enumerator.InOrderIsTruthful | internal/api/varcache.go:334-345 | answering every requested property in the order of the request is such a truthful reply |
| Enumerator.Loader.FillMetadata | internal/api/varcache.go:300-331 | the halving recursion on sub-ranges of one array, with the sticky flag, is the specified function and leaves the rest of the array alone |
| Enumerator.Loader.ListIndexes | internal/api/varcache.go:261-293 | reading one index chunk, by either path, is the specified function |
| Enumerator.Loader.List | internal/api/varcache.go:232-259 | reading the object-list whole or piecewise is the specified function |
| Enumerator.Loader.FillChunks | internal/api/varcache.go:193-198 | the loop over chunks is the specified function |
| Enumerator.LoadDevice | internal/api/varcache.go:173-213 | a whole load, with its filtering and indexing loops, is the specified function |
| Cache.RunKeepsInv | internal/api/varcache.go:101-168 | the cache invariant holds in every reachable state |
| Cache.OneLoadPerEntry | internal/api/varcache.go:114-168 | at most one load per entry runs, and at most one getter holds its mutex |
| Cache.ServedIsOneLoad | internal/api/varcache.go:99-125 | whatever get returns is one complete successful load of the requested host; it fails only with the load that this very call began |
| Cache.StepReplacesByNewer | internal/api/varcache.go:119-168 | an entry's snapshot changes only to the result of a successful, later-started load of that entry; a failed refresh changes nothing |
| Cache.SnapshotsOnlyGetNewer | internal/api/varcache.go:101-168 | over every run a snapshot once set is never unset, and never replaced by an older load's |
| Cache.FiledUnderItsHost | internal/api/varcache.go:102-107 | the entry filed under a host holds only snapshots of loads of that host |
| Cache.FiledUntilSwept | internal/api/varcache.go:102-107 | over every run a filed host keeps its entry until a sweep of that host |
| Cache.CachedHostIsServed | internal/api/varcache.go:101-113 | over every run a get called while its host's entry has a snapshot begins no load, and is served that snapshot or a newer one |
| Cache.CachedGetEnds | internal/api/varcache.go:109-113 | nothing holds such a get up: its own two steps serve the snapshot |
| Cache.OneLoadPerHost | internal/api/varcache.go:101-124 | over every run without a sweep of the host, the gets called in it run at most one load for the host at a time |
| Cache.LoadIsReturned | internal/api/varcache.go:119-124 | a getter's load that succeeds is stored and served, one that fails is reported and leaves no snapshot; the mutex is free again |
| Cache.SweepMeaning | internal/api/varcache.go:145-151 | a sweep drops a host exactly when its entry was not used since the bound, takes it up for refresh otherwise, and leaves other hosts alone |
| Cache.SweepIsComplete | internal/api/varcache.go:144-152 | every host filed when a sweep ends is up for its refresh |
| Cache.UsedWithinIdleIsKept | internal/api/varcache.go:141-151 | a host used within the idle time keeps its entry through a whole sweep, whatever else happens meanwhile |
| Cache.RefreshIsStored | internal/api/varcache.go:154-167 | an entry with a snapshot is loaded again; success replaces the snapshot, failure keeps it, and the work goes on unless the cache is closing |
| Cache.VarCache.Lookup | internal/api/varcache.go:102-108 | finding or creating an entry is one step |
| Cache.VarCache.NoteUse | internal/api/varcache.go:109 | noting the time of use is one step |
| Cache.VarCache.Peek | internal/api/varcache.go:111-113 | the look without the mutex is one step, and serves only well-formed snapshots |
| Cache.VarCache.LockEntry | internal/api/varcache.go:114 | acquiring the entry's mutex is one step |
| Cache.VarCache.LookAgain | internal/api/varcache.go:116-119 | the second look, with the mutex, serves or begins the load |
| Cache.VarCache.FinishGet | internal/api/varcache.go:119-124 | storing the result and releasing the mutex is one step |
| Cache.VarCache.SweepHost | internal/api/varcache.go:145-151 | dropping an idle entry or keeping it for refresh is one step |
| Cache.VarCache.PickEntry | internal/api/varcache.go:154-158 | a never-loaded entry is skipped, any other begins a load |
| Cache.VarCache.FinishRefresh | internal/api/varcache.go:158-167 | a successful refresh replaces the snapshot, a failed one leaves the entries alone |
| Authz.ModeMeaning | internal/authz/engine.go:116-129 | each match mode is the quantifier over the rule's conditions that its name says |
| Authz.ConditionMeaning | internal/authz/engine.go:131-171 | what each kind of condition looks at; one on an absent address, token, claim or name never matches, one with a slash is a network |
| Authz.EvaluateClosedForm | internal/authz/engine.go:73-90 | if a rule applies, exactly one has the last word (the last applicable up to the first AllowNow or DenyNow), and the decision is to allow if and only if its action is Allow or AllowNow, with its permission and name; otherwise it is the implicit deny |
| Authz.EvaluateConcat | internal/authz/engine.go:73-90 | rule lists compose: a decisive rule of the first list, else the second list if any of its rules applies, else the first |
| Authz.TraceIsThePrefix | internal/authz/engine.go:57-71 | the trace is exactly of the rules up to the first decisive one, each with its own verdict |
| Authz.TracedConditions | internal/authz/engine.go:100-108 | every condition of a traced rule is listed in order with whether it matched |
| Authz.DeciderIsLastTraced | internal/authz/engine.go:67-71 | the rule that decides is the last applicable one in the trace |
| Authz.DecisionIgnoresName | internal/authz/types.go:69-81 | without a condition on variable names, decisions do not depend on the name |
| Authz.NamelessIsBlind | internal/api/middleware.go:137-143 | for every rule list, judging without a name is judging by rules whose conditions on names never match |
| Authz.NamelessSkipsKeyedRule | internal/api/middleware.go:137-143 | wherever a rule keyed on a name stands, a nameless judgement skips it, while judging by the name ends at it when it is decisive |
| Authz.MatchClaimValue | internal/authz/engine.go:217-231 | the loop over an array claim finds whether any string item matches |
| Authz.EvaluateConditions | internal/authz/engine.go:92-114 | the counting loop gives the rule's verdict and, when tracing, its conditions' |
| Authz.EvaluateRules | internal/authz/engine.go:73-90 | the loop, with and without tracing, gives the same decision, and the trace when tracing |
| Authz.FindCondition | internal/authz/types.go:72-81 | the nested search finds whether any rule has a condition of the type, spelled over rules and conditions |
| Visibility.UniformAccess | internal/api/handlers.go:79-91 | when no rule looks at names, the uniform access equals every variable's own |
| Visibility.AllowedMeaning | internal/api/middleware.go:98-104 | writing takes a grant of readwrite, every other operation any grant |
| Visibility.AccessMeaning | internal/api/middleware.go:117-125 | a variable is visible if and only if it may be read, and readwrite if and only if it may be written too |
| Visibility.CheckMeaning | internal/api/middleware.go:171-184 | a refused write of something readable says that readwrite is needed; any other refusal says only whether to authenticate |
| Visibility.GrantedIff | internal/api/middleware.go:144-184 | where names matter, exactly listed variables allowed under their own non-empty names are granted; elsewhere the verdict is the one any name gives |
| Visibility.GrantedByAName | internal/api/middleware.go:144-167 | in every reachable cache, a grant under name rules was judged by a non-empty name from one complete load of the host |
| Visibility.VisibleVariables | internal/api/handlers.go:79-100 | the loop with its fast path lists what judging each variable by its own name lists |
| Visibility.VisibleOne | internal/api/handlers.go:79-100 | what is listed of one variable: nothing if it may not be read, else its fields and whether it may be written |
| Visibility.VisibleConcat | internal/api/handlers.go:79-100 | the listing of a list is that of its parts, in order |
| Visibility.ServeFilteredObjectList | internal/api/handlers.go:325-358 | the filter loop and the local indexing give the whole visible list, its length, its i-th element, or not found |
| Visibility.FilteredOne | internal/api/handlers.go:336-346 | one element is kept if and only if it is an object that is enumerated and visible under its name |
| Visibility.FilteredConcat | internal/api/handlers.go:336-346 | filtering a list filters its parts, in order |
| Visibility.IndexesTellTheVisible | internal/api/handlers.go:347-356 | answers agree at every index if and only if the visible sequences are equal |
| Visibility.HiddenLeavesNoTrace | internal/api/handlers.go:336-346 | inserting a hidden object anywhere in the device's list changes no answer |
| Visibility.OnlyTheVisibleMatters | internal/api/handlers.go:341-345 | caches that agree on what the caller sees give the same list |
| Visibility.ListingsAgree | internal/api/handlers.go:79-100 | for the list the snapshot was loaded from, with distinct objects, the filtered object-list and the variable listing show the same objects in the same order |

## Left out

- Client.Client.LookupReply: models the match with the pending entry tested first, because the source's order crashes on packets that the run theorems allow; `LookupAsWritten` models that order.
- Matching a reply ignores port, object and property, as the source does.
- Enumeration.ReadRange: with the largest 32-bit length the loop can end only with an error; the model gives the outcome `NeverEnds` without following it.
- Tag.RepairedMarkerTest: the repair is carried through the value decoder (`Repaired.RoundTripExactly`), not through the services built on it.
- Lengths of 2^32 octets and more: round trips are stated below that, since the source truncates lengths to 32 bits.
- Real and Double are carried as their 32- and 64-bit patterns; no floating-point arithmetic is modelled.
- The loops that convert text between character sets are functions here; `strings.ToValidUTF8`, `utf16.Decode` and the rune conversion are modelled by their definitions.
- WhoIs and DeviceInstance: the exchange is not part of this model; a load takes its outcome as an input. ReadProperty and ReadPropertyMultiple of the loader succeed with the truthful answer or fail in an arbitrary way.
- Replies about object-list indexes come in the order of the request: the source appends them as they come. A request for an empty chunk, which only a wrapped counter makes, is answered with nothing.
- Cache.VarCache: entries are positions in a sequence standing for pointers; a sweep's reads and the steps of get are atomic sections, and goroutine scheduling is any interleaving of them.
- Actual values in rule traces: their text formatting is not part of this model.
- Pattern matching, CIDR tests, claim formatting and IP formatting are arbitrary functions of a library.
- JWT verification, JWK parsing and all cryptography: a key fetch gives some key map or an error.
- Real time: timeouts, tickers and the loads' deadlines are steps that may happen at any moment; nothing is claimed about when.
- UDP sockets, HTTP, routing, TLS, logging, JSON rendering, YAML configuration and process start-up.
- Name tables for object types, properties and errors, and the conversions to REST objects.
