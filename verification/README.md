# A verified model of the BACnet simulator

This project models the parts of the simulator whose correctness spans many calls, many messages or whole runs,
and proves what the program and the standard (ASHRAE 135-2020) promise about them.  Where the program keeps a
promise only under a condition, the condition is stated and proved to be exact.

Run `dafny verify dfyconfig.toml` to check everything.

## What is modelled

- **The MS/TP token ring** (`TokenRing*.dfy`, `VirtualMstpMaster.dfy`).  Masters read one broadcast log at their own
  pace and hand a token around.  A run is any sequence of boot, receive, drain, pass, timeout, lag and enqueue steps.
  The classes of the program are proved to take exactly these steps.  Token conservation and the order of data hold in
  all runs; order of turns, fairness and progress under every interleaving hold in runs without a restart by address 0.
  What restarts do, how many tokens there are then, and when receivers begin to lag, is proved exactly.
- **MS/TP frames** (`Crc.dfy`, `CrcResidues.dfy`, `MstpCodec.dfy`, `FrameForms.dfy`, `HeaderCheck.dfy`, `FrameCheck.dfy`):
  the two checksums as the program's bit loops compute them, their residues and check values, what they detect, and the
  frame codec.
- **The tag encoding of section 20.2** (`Tags.dfy`, `Asn1.dfy`, `Application.dfy`, `DecoderLoops.dfy`, `BitStrings.dfy`,
  `BigEndian.dfy`) with its round trips (`ValueRoundTrip.dfy`, `Asn1RoundTrip.dfy`, `Readers.dfy`), and
  with the octets themselves, on every buffer: what the encoders write (`WireForms.dfy`) and what the decoders accept
  (`WireGrammar.dfy`, `ValueGrammar.dfy`, `PrimitiveGrammar.dfy`), in the numbers of the standard.
- **Acknowledgements and requests built on it** (`Ack.dfy`, `AckReader.dfy`, `Misreadings.dfy`, `AckExact.dfy`,
  `Confirmed.dfy`, `ConfirmedRoundTrip.dfy`, `RequestGrammar.dfy`, `PropertyIds.dfy`).
- **Segment reassembly** (`Segmentation.dfy`).
- **The simulation engine** (`CovEngines.dfy`, `CovRuns.dfy`, `SimEngines.dfy`, `SimEngineRuns.dfy`, `TwoFilters.dfy`,
  `Alarms.dfy`, `AlarmDelay.dfy`, `SimValues.dfy`): two stacked threshold filters and the alarm state machine, over
  arbitrary runs.
- **The object store, the clock and the Analog Output object** (`ObjectStores.dfy`, `Calendar.dfy`,
  `AnalogOutputs.dfy`).

`Machine.dfy`, `Modular.dfy`, `BitLaws.dfy`, `BacnetTypes.dfy`, `Buffers.dfy` and `MstpFrames.dfy` hold what these share.

Conventions: bytes are bit-vectors; counters, addresses and lengths are integers with the source's range, and every
truncating cast is written out.  On the wire, floating-point numbers are their bit patterns, signed integers their
two's complement and strings their UTF-8 bytes; in the engine, they are exact reals, and points in time are
nanoseconds.  A decoder's outcome is a value with the next position, an error, or `Abort` where a slice or a
subtraction is out of range and the program stops.  Error texts are not modelled.

## Where the program and its documentation part

The model follows the code.  These are the places where it does less than its comments or the standard say.

- Address 0 restarts the ring although the token may be alive.  The first restart of a run always meets a live token and
  makes a second one (`TokenRingRestarts.OneTokenExactly`); with too many tokens receivers lag
  (`TokenRingCrowding.NeverLagsExactly`).
- A Boolean is written in two bytes but read from one (`application.rs:13`, `tags.rs:188-189`).
- `decode_application_value` takes the low bits of the last octet of a bit string (`tags.rs:267-273`), while the encoder
  fills it from the high end; `decode_application_bitstring` in `asn1.rs` is right.  So the four status flags are read as
  all clear by the general decoder.
- The same decoder reads an unspecified weekday as Sunday and an unlisted object type as a device.
- A message of 256 segments is handed over empty, and longer ones never or empty (`segmentation.rs:50`: the total is cast
  to one byte).
- Store keys of objects with instance numbers of more than 22 bits can collide.
- The alarm delay is not started anew when a different state is called for, so a state can be notified that was called for
  by one reading only (`Alarms.DelayCarriesOver` is an instance, `AlarmDelay.KeepsRuleExactly` the exact condition).
- A subscription to a real value without a positive increment is told of every check, even of an unchanged value
  (`CovRuns.EverythingTold`, `CovRuns.NeverRepeatsExactly`).
- A subscription that starts from another value than the model's entry can stay out of step with the model until an output
  passes the first filter (`TwoFilters.AlwaysWithinExactly`).
- Index 0 of a priority array gives the first slot, not the size.
- Both checksums are proved for the program's own polynomials, 0xE0 and 0xA001, with the residues 0xCF and 0xB001;
  conformance to Annex G of the standard is not claimed.

## Model

| member | source | states |
|---|---|---|
| TokenRingAllRuns.EveryRun | crates/bacnet-transport/src/mstp/master.rs:82-174 | In every run, with any timeouts and any lagging receivers: tokens in flight or held, plus tokens skipped by lag, are one boot token plus the restarts of address 0; and what each master sent, followed by what it still queues, is what was queued there, in order |
| TokenRingAllRuns.StepConserves | crates/bacnet-transport/src/mstp/master.rs:85-172 | Every single step, of every kind, keeps the token account |
| TokenRingFrames.WhatIsSent | crates/bacnet-transport/src/mstp/master.rs:82-172 | What each kind of step puts on the bus, field by field: a token from this master to the next around the ring, at most the oldest queued frame as data not expecting a reply, an answer to a poll back to who polled, tokens from 0 to 0 at the boot and on a timeout of address 0, and nothing else |
| TokenRingFrames.FramesNameSender | crates/bacnet-transport/src/mstp/master.rs:236-244 | In every run, with restarts and lag, each frame on the bus names as its source the master whose step put it there |
| TokenRingFrames.TokenFields | crates/bacnet-transport/src/mstp/master.rs:236-244 | In every run without a restart token number t goes to master t mod n from master (t - 1) mod n (the first one from 0) and carries no data |
| TokenRingFrames.LagKeepsRetained | crates/bacnet-transport/src/mstp/master.rs:125-127 | A receiver lags exactly when more than 512 frames are in front of it, and then goes on with the oldest of the last 512, so that it still reads everything the bus retains |
| TokenRingProgress.SingleTokenInTurn | crates/bacnet-transport/src/mstp/master.rs:82-148 | In every run without a restart the log is tokens to 0, 1, 2, … around the ring with at most one data frame after each, from the master whose token it was; exactly one token exists; at most one master holds it; after K tokens master i has received the K-i-th share rounded up; no receiver lags |
| TokenRingRestarts.OneTokenExactly | crates/bacnet-transport/src/mstp/master.rs:161-172 | In every run there is at most one token at all times if and only if address 0 never restarts the ring |
| TokenRingRestarts.RestartMakesTwo | crates/bacnet-transport/src/mstp/master.rs:161-172 | The first restart of a run always finds a token alive and makes a second one |
| TokenRingLag.FewTokensNeverLag | crates/bacnet-transport/src/mstp/master.rs:103-127 | In every run in which masters times tokens stay within 256, restarts included, no receiver lags, no token is lost, and exactly one token more circulates than there were restarts |
| TokenRingCrowding.NeverLagsExactly | crates/bacnet-transport/src/mstp/master.rs:103-127 | A ring stands so many restarts without any receiver ever lagging if and only if masters times tokens are at most 256, half of what the bus retains |
| TokenRingCrowding.ManyTokensLag | crates/bacnet-transport/src/mstp/master.rs:125-127 | For every ring and number of restarts beyond that, a run in which a receiver lags |
| TokenRingInTurn.NoLag | crates/bacnet-transport/src/mstp/master.rs:103-124 | With at most 255 masters and no restart no receiver falls behind the 512 frames the bus retains |
| TokenRingInTurn.PassInTurn | crates/bacnet-transport/src/mstp/master.rs:54-60 | The successor of the master whose turn it is, is the master whose turn comes next |
| TokenRingInTurn.StepOrderly | crates/bacnet-transport/src/mstp/master.rs:82-148 | Each step except a restart keeps the one-token order |
| TokenRingProgress.StepProgress | crates/bacnet-transport/src/mstp/master.rs:102-148 | In every state one action moves the token; it makes progress by a decreasing measure, and no other action disturbs it |
| TokenRingLiveness.EveryScheduleServes | crates/bacnet-transport/src/mstp/master.rs:102-148 | In every continuation of every run without restarts, under every interleaving of the masters and whatever is queued meanwhile, 514 moves of the token per master and round bring every master the token at least so many rounds more |
| TokenRingLiveness.EveryScheduleDelivers | crates/bacnet-transport/src/mstp/master.rs:54-59 | In every such continuation, 65 rounds of moves bring everything that was queued before onto the bus, in order |
| TokenRingLiveness.MovesPaid | crates/bacnet-transport/src/mstp/master.rs:102-148 | In every such run the moves of the token are paid for by its receipts: it never moves in vain |
| TokenRingProgress.EveryMasterServed | crates/bacnet-transport/src/mstp/master.rs:102-148 | The ring is never stuck: from every state reached without a restart there is a continuation without timeouts that gives every master the token exactly any given number of times more |
| TokenRingProgress.EverythingIsSent | crates/bacnet-transport/src/mstp/master.rs:54-59 | And there is one that empties all queues, after which every master has sent exactly what was ever queued there, in order |
| VirtualMstp.VirtualMstpMaster.Join | crates/bacnet-transport/src/mstp/master.rs:54-69 | A joined master is a fresh node that hears what is sent from now on, with the successor (address + 1) mod (max_master + 1) |
| VirtualMstp.VirtualMstpMaster.ReceiveOne | crates/bacnet-transport/src/mstp/master.rs:105-123 | One frame is the receive action of the ring: a token to this address is taken and counted, a poll to it is answered, anything else is passed over |
| VirtualMstp.VirtualMstpMaster.Lagged | crates/bacnet-transport/src/mstp/master.rs:125-127 | A receiver that lags resumes 512 frames before the end and is told how many it missed |
| VirtualMstp.VirtualMstpMaster.UseTheToken | crates/bacnet-transport/src/mstp/master.rs:134-156 | One hold of the token sends the oldest queued frame, if there is one, as data not expecting a reply, and then one token without data to (address + 1) mod (max_master + 1), both with this address as source, in this order |
| VirtualMstp.VirtualMstpMaster.TimedOut | crates/bacnet-transport/src/mstp/master.rs:161-172 | On a timeout address 0 sends a new token from 0 to 0 and the others send nothing |
| Crc.ComputeCrc8 | crates/bacnet-codec/src/mstp.rs:127-140 | The bitwise loops compute the header register |
| Crc.ComputeCrc16 | crates/bacnet-codec/src/mstp.rs:143-156 | The bitwise loops compute the data register |
| Crc.Register16Xor | crates/bacnet-codec/src/mstp.rs:143-153 | The data register is linear over exclusive or, in the start value and the data together |
| Crc.Crc16Difference | crates/bacnet-codec/src/mstp.rs:143-156 | Payloads of one length share a checksum exactly when their difference leaves a zero register |
| Crc.Feed16Injective | crates/bacnet-codec/src/mstp.rs:145-152 | The step for one byte is a bijection of the register |
| Crc.TwoByteChangeDetected | crates/bacnet-codec/src/mstp.rs:143-156 | A change confined to two neighbouring bytes, in a payload of any length, changes the checksum |
| Crc.BurstDetected | crates/bacnet-codec/src/mstp.rs:143-156 | So does any burst of up to sixteen bits at any bit offset |
| Crc.OddErrorsDetected | crates/bacnet-codec/src/mstp.rs:143-156 | So does any odd number of flipped bits anywhere |
| Crc.Crc8OneByte | crates/bacnet-codec/src/mstp.rs:127-140 | A change of one header byte changes the header checksum |
| CrcResidues.DataResidue | crates/bacnet-codec/src/mstp.rs:143-156 | For all data: a register that is run over data and data checksum ends in 0xB001, which fixes start value, polynomial and complement |
| CrcResidues.HeaderResidue | crates/bacnet-codec/src/mstp.rs:127-140 | For all headers: a register that is run over header and header checksum ends in 0xCF |
| CrcResidues.DataCheckValue | crates/bacnet-codec/src/mstp.rs:143-156 | The data checksum of the digits 1 to 9 is 0xB4C8 |
| CrcResidues.HeaderCheckValue | crates/bacnet-codec/src/mstp.rs:127-140 | The header checksum of the digits 1 to 9 is 0x2F |
| MstpCodec.Encode | crates/bacnet-codec/src/mstp.rs:66-83 | The bytes written are preamble, header, header checksum, data and data checksum |
| MstpCodec.RoundTrip | crates/bacnet-codec/src/mstp.rs:66-123 | Decoding the encoded frame, followed by anything, gives the frame back if and only if it has at most 65535 data bytes |
| FrameForms.FrameOctets | crates/bacnet-codec/src/mstp.rs:66-83 | Each octet of an encoded frame as a number: preamble 0x55 0xFF, type from a list in the order of the standard, destination, source, length high octet first, header checksum |
| FrameForms.ChecksumOctets | crates/bacnet-codec/src/mstp.rs:78-82 | Behind it the data as they are and their checksum, low octet first |
| FrameForms.DecodesExactlyEncodings | crates/bacnet-codec/src/mstp.rs:86-123 | On every buffer, decoding returns a frame if and only if the buffer begins with the encoding of that frame and the frame has at most 65535 data bytes |
| FrameForms.CutOffIsIncomplete | crates/bacnet-codec/src/mstp.rs:86-111 | A frame cut off at any place is waited for, never refused |
| FrameForms.TypesFromNumbers | crates/bacnet-codec/src/mstp.rs:25-37 | The eight frame types are those numbered 0 to 7 in the order of the standard, and no other number has a type |
| MstpCodec.PrefixCorruptionDetected | crates/bacnet-codec/src/mstp.rs:86-123 | Changing any one of the first eight bytes is refused, with the error named |
| HeaderCheck.HeaderRefusedExactly | crates/bacnet-codec/src/mstp.rs:96-105 | Any six bytes in place of header and header checksum fail the checksum exactly when their type is known and the difference leaves a nonzero register; an unknown type is named first |
| HeaderCheck.HeaderErrorsDetected | crates/bacnet-codec/src/mstp.rs:96-105 | Any burst of up to eight bits and any odd number of flipped bits, in header and header checksum together, is refused, with the error named |
| FrameCheck.AcceptedExactly | crates/bacnet-codec/src/mstp.rs:106-122 | Any bytes in place of data and checksum together are accepted exactly when the difference leaves a zero register, and are otherwise BadDataCrc |
| FrameCheck.PayloadErrorsDetected | crates/bacnet-codec/src/mstp.rs:106-122 | Any burst of up to sixteen bits and any odd number of flipped bits, in data and checksum together, is refused as BadDataCrc |
| PropertyIds.TablesAgree | crates/bacnet-types/src/property_id.rs:94-236 | The two property tables are inverse to each other exactly on identifiers that do not hide a listed number |
| PropertyIds.NumberRoundTrip | crates/bacnet-types/src/property_id.rs:94-236 | Every number survives being read as an identifier and written again |
| Tags.EncodeCtxObjectId | crates/bacnet-types/src/encoding/tags.rs:357-363 | Writes a context tag of length four and the packed identifier |
| Tags.EncodeCtxU32 | crates/bacnet-types/src/encoding/tags.rs:366-371 | Writes a context tag and the big-endian form in as few octets as possible (by WireForms.ShortestForm) |
| BigEndian.UintRoundTrip | crates/bacnet-types/src/encoding/tags.rs:388-400 | The big-endian octets of a number, one to four, have the number as their value |
| WireForms.ShortestForm | crates/bacnet-types/src/encoding/tags.rs:388-400 | And no other octets with this value are fewer, the empty string aside |
| DecoderLoops.AccumulateBytes | crates/bacnet-types/src/encoding/tags.rs:47-57 | The shift loop over any number of bytes yields their big-endian value modulo 2^32 |
| DecoderLoops.CollectLowBits | crates/bacnet-types/src/encoding/tags.rs:263-274 | The general decoder's bit loop takes the low bits of the last octet |
| DecoderLoops.CollectHighBits | crates/bacnet-types/src/encoding/asn1.rs:231-240 | The bit string decoder's loop takes the high bits of the last octet |
| DecoderLoops.DecodeBitString | crates/bacnet-types/src/encoding/asn1.rs:190-242 | The imperative bit string decoder is the decoding function, on every byte string |
| DecoderLoops.DecodeUnsigned | crates/bacnet-types/src/encoding/asn1.rs:21-43 | The imperative unsigned decoder is the decoding function, on every byte string |
| DecoderLoops.DecodeContentsAt | crates/bacnet-types/src/encoding/tags.rs:188-350 | Integer and bit string contents read with the loops are the contents of the decoding function, failures included |
| Asn1.EncodeApplicationBitString | crates/bacnet-types/src/encoding/asn1.rs:157-188 | The encoder with its packing loop writes tag, length, spare-bit count and packed octets |
| Asn1.EncodeBits | crates/bacnet-types/src/encoding/asn1.rs:175-187 | The packing loop writes the octets of the bits, eight at a time from the high end |
| BitStrings.HighBitsRoundTrip | crates/bacnet-types/src/encoding/asn1.rs:157-242 | Packed bits are read back by taking the high bits of the last octet |
| BitStrings.LowBitsRoundTrip | crates/bacnet-types/src/encoding/tags.rs:263-274 | Taking the low bits instead gives them back exactly when the bits after the last full octet are clear |
| Asn1RoundTrip.UnsignedRoundTrip | crates/bacnet-types/src/encoding/asn1.rs:15-43 | Every unsigned number survives |
| Asn1RoundTrip.RealRoundTrip | crates/bacnet-types/src/encoding/asn1.rs:49-66 | Every bit pattern of a real survives |
| Asn1RoundTrip.ObjectIdRoundTrip | crates/bacnet-types/src/encoding/asn1.rs:72-103 | An object identifier survives exactly when its type is listed and its instance has 22 bits; an unlisted type is an error here |
| Asn1RoundTrip.DateRoundTrip | crates/bacnet-types/src/encoding/asn1.rs:109-151 | A date survives exactly when its year is 1900 to 2155, whatever the weekday |
| Asn1RoundTrip.BitStringRoundTrip | crates/bacnet-types/src/encoding/asn1.rs:157-242 | A bit string survives exactly up to 2032 bits |
| PrimitiveGrammar.UnsignedExactly | crates/bacnet-types/src/encoding/asn1.rs:21-43 | On every byte string: an unsigned number is read if and only if tag, length and value stand there as numbers, with any length up to seven and either class bit |
| PrimitiveGrammar.RealExactly | crates/bacnet-types/src/encoding/asn1.rs:54-66 | The same for reals, by their bit patterns |
| PrimitiveGrammar.ObjectIdExactly | crates/bacnet-types/src/encoding/asn1.rs:79-103 | The same for object identifiers: here a type outside the list is an error |
| PrimitiveGrammar.DateExactly | crates/bacnet-types/src/encoding/asn1.rs:119-151 | The same for dates: a weekday number other than 1 to 7 is an unspecified day |
| PrimitiveGrammar.BitStringExactly | crates/bacnet-types/src/encoding/asn1.rs:190-242 | The same for bit strings, and exactly when the program stops instead |
| Asn1RoundTrip.ShortBitStringReadAsClear | crates/bacnet-types/src/encoding/tags.rs:258-275 | The general decoder reads every bit string of one to four bits as all clear |
| Application.EncodePropertyValue | crates/bacnet-types/src/encoding/application.rs:9-71 | The recursive encoder appends exactly the encoding of the value |
| Application.EncodeItems | crates/bacnet-types/src/encoding/application.rs:40-44 | Elements of arrays and lists are written one after another without brackets |
| WireForms.SmallForms | crates/bacnet-types/src/encoding/application.rs:12-13 | A Null is the octet 0, a Boolean the octet 17 and a second one that is 1 exactly for true, and raw bytes are written as they are |
| WireForms.NumberForms | crates/bacnet-types/src/encoding/application.rs:14-48 | Unsigned numbers take as few octets as possible, enumerations one below 256 and else four, integers and reals four, each behind its tag |
| WireForms.ContextForms | crates/bacnet-types/src/encoding/tags.rs:357-384 | First octet and contents of context-tagged numbers and object identifiers, and opening and closing tags, as numbers |
| WireForms.StringForm | crates/bacnet-types/src/encoding/application.rs:16-22 | A string is its tag, a length octet, an octet 0 for the character set and its text |
| WireForms.OctetStringForm | crates/bacnet-types/src/encoding/application.rs:55-64 | An octet string is its octets behind a tag that counts up to four of them, or behind a length octet |
| WireForms.ObjectIdForm | crates/bacnet-types/src/encoding/asn1.rs:72-77 | An object identifier is its tag and 2^22 times the type plus the low 22 bits of the instance |
| WireForms.DoubleForm | crates/bacnet-types/src/encoding/application.rs:50-54 | A double is its tag, the length 8 and eight octets with its bit pattern as value |
| WireForms.TimeForm | crates/bacnet-types/src/encoding/application.rs:65-68 | A time is its tag, hour, minute, second and hundredths |
| WireForms.DateForm | crates/bacnet-types/src/encoding/asn1.rs:109-117 | A date is its tag, the year since 1900, month, day and weekday, from 1 for Monday and 255 for none |
| WireForms.BitStringForm | crates/bacnet-types/src/encoding/asn1.rs:157-188 | A bit string counts its spare bits, of which there are fewer than eight, and has its bits from the high end of each octet |
| ValueRoundTrip.DecodeExactly | crates/bacnet-types/src/encoding/tags.rs:169-350 | Wherever the encoding stands in a buffer, decoding gives the value and advances by its length if and only if the value is decodable: no Boolean, raw bytes, array or list; strings to 254 bytes, octets to 255, bit strings to 2032 bits with a clear tail, listed types with 22-bit instances, dates 1900 to 2155 with a weekday |
| ValueRoundTrip.RoundTripsExactly | crates/bacnet-types/src/encoding/application.rs:9-71 | The same as a property of the value: it round-trips in every buffer if and only if it is decodable |
| ValueRoundTrip.BooleanFails | crates/bacnet-types/src/encoding/tags.rs:188-189 | A Boolean of either value is read as true from the first of its two bytes, and the second is left over |
| ValueRoundTrip.OctetsOutcome | crates/bacnet-types/src/encoding/tags.rs:234-243 | What becomes of octet strings of every length: beyond 255 only as many octets as the low byte of the length says |
| ValueRoundTrip.StringOutcome | crates/bacnet-types/src/encoding/tags.rs:245-255 | What becomes of strings of every length: the length byte is taken modulo 256 |
| Misreadings.DecodeLeavesExactly | crates/bacnet-types/src/encoding/application.rs:40-44 | Repeated decoding of an encoded array or list gives its flattened elements and ends at the end of the encoding if and only if each is decodable |
| Readers.CtxU32RoundTrip | crates/bacnet-types/src/encoding/tags.rs:95-109 | A context-tagged number is read back and passed over exactly |
| Readers.CtxObjectIdRoundTrip | crates/bacnet-types/src/encoding/tags.rs:118-151 | A context-tagged object identifier is read back as its packed form says |
| Readers.CtxU32Advances | crates/bacnet-types/src/encoding/tags.rs:95-109 | On every input a successful read moves forward and stays inside the buffer |
| Readers.ApplicationValueAdvances | crates/bacnet-types/src/encoding/tags.rs:169-350 | On every input a successfully decoded value moves forward and stays inside the buffer |
| WireGrammar.TagTestsExactly | crates/bacnet-types/src/encoding/tags.rs:64-89 | The tests for opening, closing and context tags as conditions on the number of the octet, on every buffer |
| WireGrammar.CtxNumberExactly | crates/bacnet-types/src/encoding/tags.rs:95-109 | On every buffer: a context-tagged number is read up to an end if and only if the octets there are the tag with a length and so many octets with that value modulo 2^32; anything else is a decoding error |
| WireGrammar.CtxObjectExactly | crates/bacnet-types/src/encoding/tags.rs:118-151 | On every buffer: an object identifier is read if and only if four octets stand there whose low 22 bits are the instance and whose high ten bits are the type, when that number is in a list kept apart from the table, and otherwise the type is a device |
| BacnetTypes.ListedTypes | crates/bacnet-types/src/object_types.rs:71-88 | The table of types knows exactly the numbers 0 to 5, 8, 13, 14, 15, 17 and 20, each as itself |
| ValueGrammar.ValueExactly | crates/bacnet-types/src/encoding/tags.rs:169-350 | On every buffer: a value is returned with an end if and only if the octets up to it are that value by the numbers of the standard: application tag, length and contents, big-endian numbers, bits of each octet by division, dates and times octet by octet |
| ValueGrammar.ValueFailsExactly | crates/bacnet-types/src/encoding/tags.rs:169-350 | On every other buffer it is a decoding error, and the program stops exactly on a bit string that counts more unused bits than there can be |
| Readers.ReadValuesBack | crates/bacnet-codec/src/apdu/ack.rs:138-141 | Between its tags a value, nested or not, is read back as its leaves and reading stops at the closing tag |
| Ack.EncodeRpmAck | crates/bacnet-codec/src/apdu/ack.rs:123-155 | The nested loops append exactly the bracketed form of the results |
| Ack.EncodeReadPropertyAck | crates/bacnet-codec/src/apdu/ack.rs:108-121 | The encoder appends exactly the bracketed form of the acknowledgement |
| AckReader.RpmAckReadBack | crates/bacnet-codec/src/apdu/ack.rs:123-194 | For listed object types, 22-bit instances and readable leaves, a reader made only of the program's tag predicates and decoders recovers every object, property, index, flattened value list and error pair, and ends exactly at the end of the buffer |
| AckExact.RpmAckReadExactly | crates/bacnet-codec/src/apdu/ack.rs:123-194 | And only for these: any other acknowledgement is misread or not read to its end |
| AckExact.ReadPropertyAckReadExactly | crates/bacnet-codec/src/apdu/ack.rs:108-121 | The ReadProperty acknowledgement is read back up to its end if and only if its object identifier fits and every leaf of its value is readable |
| Misreadings.LeavesMisread | crates/bacnet-codec/src/apdu/ack.rs:136-141 | A list with an unreadable leaf never comes back as it was, whatever bytes follow |
| AckReader.OutcomeBack | crates/bacnet-codec/src/apdu/ack.rs:136-151 | A value or an error pair is read back and told apart |
| AckReader.RpmAckUniquelyReadable | crates/bacnet-codec/src/apdu/ack.rs:123-194 | Acknowledgements with the same bytes say the same |
| AckReader.ErrorPairsTellApart | crates/bacnet-codec/src/apdu/ack.rs:158-194 | Two errors are sent as the same class and code exactly when they mean the same, unless a bare number repeats a named code |
| AckReader.ErrorNumbers | crates/bacnet-codec/src/apdu/ack.rs:158-194 | The classes and codes by the numbers of the standard |
| Confirmed.DecodeReadPropertyMultiple | crates/bacnet-codec/src/apdu/confirmed.rs:285-322 | The nested loops terminate on every byte string and compute the decoding function |
| Confirmed.DecodePropertyList | crates/bacnet-codec/src/apdu/confirmed.rs:301-316 | The inner loop reads references up to the closing tag, or fails at the end of the buffer |
| Confirmed.SpecAdvances | crates/bacnet-codec/src/apdu/confirmed.rs:291-319 | Each round of the outer loop moves strictly forward and stays inside the body |
| Confirmed.RpmConsumesBody | crates/bacnet-codec/src/apdu/confirmed.rs:285-322 | Success means that the whole body was used |
| RequestGrammar.RpmExactly | crates/bacnet-codec/src/apdu/confirmed.rs:285-322 | On every body: a request is accepted if and only if the whole body is that request by the grammar of ReadPropertyMultiple in numbers (object [0], brackets [1], property [0] and optional index [1]), and every other body is a decoding error |
| RequestGrammar.ReadPropertyExactly | crates/bacnet-codec/src/apdu/confirmed.rs:205-219 | The same for ReadProperty: object [0], property [1], optional index [2]; what follows is not looked at |
| RequestGrammar.WritePropertyExactly | crates/bacnet-codec/src/apdu/confirmed.rs:230-272 | The same for WriteProperty: then the value in brackets [3] and an optional priority [4], of which the low octet counts |
| RequestGrammar.SubscribeCovExactly | crates/bacnet-codec/src/apdu/confirmed.rs:332-354 | The same for SubscribeCOV: process [0], object [1], optional flag [2], where any number but 0 is a yes, and optional lifetime [3] |
| ConfirmedRoundTrip.RpmRoundTrip | crates/bacnet-codec/src/apdu/confirmed.rs:285-322 | Decoding inverts the request grammar if and only if every object has a listed type and a 22-bit instance and every property is canonical |
| ConfirmedRoundTrip.RpmNormalForm | crates/bacnet-codec/src/apdu/confirmed.rs:285-322 | Any accepted body, however it was written, means a request that is written and read back unchanged |
| ConfirmedRoundTrip.ReadPropertyRoundTrip | crates/bacnet-codec/src/apdu/confirmed.rs:205-219 | A ReadProperty request survives if and only if its object identifier fits and its property is canonical |
| ConfirmedRoundTrip.WritePropertyRoundTrip | crates/bacnet-codec/src/apdu/confirmed.rs:230-272 | A WriteProperty request, with any index and priority, survives if and only if moreover its value is decodable |
| ConfirmedRoundTrip.OnlyDecodableRecovered | crates/bacnet-types/src/encoding/tags.rs:169-350 | Apart from a true Boolean, a value that is not decodable is not recovered even with a wrong length |
| ConfirmedRoundTrip.SubscribeCovRoundTrip | crates/bacnet-codec/src/apdu/confirmed.rs:332-354 | A SubscribeCOV request with any of its optional parts survives if and only if its object identifier fits |
| Segmentation.SegmentBuffer.AddSegment | crates/bacnet-codec/src/apdu/segmentation.rs:30-46 | One arrival: the new map and total, and the answer |
| Segmentation.SegmentBuffer.Reassemble | crates/bacnet-codec/src/apdu/segmentation.rs:48-56 | The loop joins the segments below the total taken as one byte |
| Segmentation.CompleteBySize | crates/bacnet-codec/src/apdu/segmentation.rs:36-44 | For up to 256 parts, comparing the size of the map with the total decides whether all arrived |
| Segmentation.ReassemblyExactly | crates/bacnet-codec/src/apdu/segmentation.rs:30-56 | For every order and repetition of arrivals the caller is told the message exactly when it is complete, if and only if it has at most 255 parts (or 256 parts with no byte at all) |
| Segmentation.AnswerInOrder | crates/bacnet-codec/src/apdu/segmentation.rs:30-56 | Why not more: 256 or more parts in order end in an empty message or in none |
| Segmentation.LatestIsKept | crates/bacnet-codec/src/apdu/segmentation.rs:36-40 | For arrivals of any kind, from whatever sender: under each number stands the data that came last, and the total is that of the last segment that ended a message |
| Segmentation.NextAnswer | crates/bacnet-codec/src/apdu/segmentation.rs:36-44 | And the next segment is answered, as soon as there are as many segments as the total says, by those numbered below the total modulo 256 |
| CovEngines.CovEngine.CheckAndNotify | crates/bacnet-sim-engine/src/cov_engine.rs:67-114 | Whatever the order of the loop, each matching subscription is updated on its own and each subscriber is sent exactly its own notification; the result says whether any was sent |
| CovEngines.CovEngine.ExpireOld | crates/bacnet-sim-engine/src/cov_engine.rs:117-132 | Exactly the subscriptions whose whole seconds reached their lifetime go, and they are counted |
| CovEngines.LifetimeExactly | crates/bacnet-sim-engine/src/cov_engine.rs:120-129 | Counting whole seconds, a subscription is kept exactly until its lifetime in nanoseconds is over, at every reading of the clock |
| CovRuns.Isolation | crates/bacnet-sim-engine/src/cov_engine.rs:53-132 | In every run a subscriber's entry and notifications depend on its own entry alone |
| CovRuns.SentExactly | crates/bacnet-sim-engine/src/cov_engine.rs:67-114 | In every run, whoever else subscribes, a subscriber is sent exactly the notifications built from the events, field by field and in order: property and value of the check that caused each, confirmed or not as the subscription in force asks |
| CovRuns.ConcernsExactly | crates/bacnet-sim-engine/src/cov_engine.rs:72-84 | A check concerns a subscription for the same device and object, and for this property or for all |
| CovRuns.ChangesTold | crates/bacnet-sim-engine/src/cov_engine.rs:90-96 | In every run, values that are not real are told exactly when they differ from the one before |
| CovRuns.NotificationBound | crates/bacnet-sim-engine/src/cov_engine.rs:67-114 | In every run the increment times the notifications sent is at most the distance the checked values move, counted from the value at the start |
| CovRuns.SubscriberUpToDate | crates/bacnet-sim-engine/src/cov_engine.rs:67-114 | After every step of every run the remembered value is the one last told, and the value last checked is within the increment of it |
| CovRuns.NeverRepeatsExactly | crates/bacnet-sim-engine/src/cov_engine.rs:90-96 | In every run, whoever else subscribes, a real value that was told last is never told again, if and only if the increment is positive |
| SimEngines.SimEngine.Tick | crates/bacnet-sim-engine/src/engine.rs:98-168 | One round of models, alarms, announcements and expiry: every stored object is visited once, its model entry and alarm advance, the changes are dispatched in that order, and subscriptions expire at most every ten seconds |
| SimEngineRuns.TickIsStep | crates/bacnet-sim-engine/src/engine.rs:98-158 | The order of visits makes no difference to any subscription or to what any subscriber is sent |
| TwoFilters.SubscriberWithinBothThresholds | crates/bacnet-sim-engine/src/engine.rs:112-155 | In every run, after every tick, what a subscriber was told last equals the model's output or is closer to it than the two increments together, once the subscription was in sync or an output has passed the first filter since |
| TwoFilters.TickInSync | crates/bacnet-sim-engine/src/engine.rs:133-155 | One output that passes the first filter brings a subscription in step, whatever it started from |
| TwoFilters.AlwaysWithinExactly | crates/bacnet-sim-engine/src/engine.rs:133-168 | For clocks that do not run backwards, the bound holds after every tick of every run if and only if the first filter passes everything, or the subscription starts from a real value within its own increment of the model's entry, or its lifetime is over and the next tick drops it |
| SimEngineRuns.EngineRemembersTold | crates/bacnet-sim-engine/src/cov_engine.rs:97-101 | What the engine remembers for a subscriber is what the subscriber was sent last |
| SimEngineRuns.NotificationsCovered | crates/bacnet-sim-engine/src/engine.rs:134-155 | In every run the notifications to a subscriber, times either increment, are at most the distance the model's outputs move |
| SimEngineRuns.TickExpiry | crates/bacnet-sim-engine/src/engine.rs:161-168 | A tick keeps exactly the subscriptions within their lifetime, or all of them when the last expiry was less than ten seconds ago |
| SimEngineRuns.AlarmFollowsModel | crates/bacnet-sim-engine/src/engine.rs:120-132 | In every run an object's alarm is the alarm machine run on the model's outputs |
| Alarms.AlarmStateMachine.Evaluate | crates/bacnet-sim-engine/src/alarm_engine.rs:46-100 | One evaluation: new state, timer and notification |
| Alarms.NotificationsChain | crates/bacnet-sim-engine/src/alarm_engine.rs:86-96 | Each notification starts where the last one ended, changes the state, and ends in Normal, HighLimit or LowLimit; the last one tells the present state |
| Alarms.EntriesBounded | crates/bacnet-sim-engine/src/alarm_engine.rs:58-96 | For either limit, all entries but one, times twice the band (the smaller of deadband and distance of the limits), are at most the distance the values move |
| Alarms.BandIsDeadband | crates/bacnet-sim-engine/src/alarm_engine.rs:68-72 | The band is the whole deadband exactly when the deadband is zero or the low limit is that far below the high limit |
| Alarms.DepthAtTransition | crates/bacnet-sim-engine/src/alarm_engine.rs:59-78 | A limit state is entered beyond the limit and left only a band inside it |
| Alarms.CandidateExactly | crates/bacnet-sim-engine/src/alarm_engine.rs:59-78 | For every value and state: HighLimit is called for beyond the high limit, or from HighLimit until the value is a deadband inside it or below the low limit; LowLimit likewise; and nothing but these two and Normal |
| Alarms.NotifiedExactlyAfterDelay | crates/bacnet-sim-engine/src/alarm_engine.rs:80-96 | A notification is sent if and only if the reading calls for another state and an unbroken window of such readings, with the state unchanged, began at least the delay ago (or no delay is set) |
| AlarmDelay.KeepsRuleExactly | crates/bacnet-sim-engine/src/alarm_engine.rs:82-96 | Every state notified, in every run, was itself called for throughout a delay, if and only if no delay is set or the machine stands at a limit and the limits leave no way back to Normal |
| AlarmDelay.KeepsRuleFromNormal | crates/bacnet-sim-engine/src/alarm_engine.rs:82-96 | From Normal this is so exactly when no delay is set |
| AlarmDelay.NeverLate | crates/bacnet-sim-engine/src/alarm_engine.rs:82-96 | A state called for throughout a delay is always notified: the program is never later than this rule |
| AlarmDelay.KeepsRuleOnSteadyWindows | crates/bacnet-sim-engine/src/alarm_engine.rs:82-96 | In every run, at every reading whose windows call for one state only, the program notifies exactly as the rule says |
| Alarms.OnlyNumbersCount | crates/bacnet-sim-engine/src/alarm_engine.rs:58 | Readings that are not numbers change nothing |
| ObjectStores.KeysDistinctExactly | crates/bacnet-object/src/store.rs:92-100 | Keys tell objects apart exactly when instance numbers are kept to 22 bits |
| ObjectStores.BitOrBits | crates/bacnet-object/src/store.rs:92-100 | The disjunction in the key bit by bit, for numbers of any size |
| ObjectStores.KeyInjective | crates/bacnet-sim-engine/src/engine.rs:185-189 | The engine's key, the same formula, is injective on such instances |
| ObjectStores.ObjectStore.Insert | crates/bacnet-object/src/store.rs:110-114 | An insertion is one update of the flat map, for any hash |
| ObjectStores.ObjectStore.BulkInsert | crates/bacnet-object/src/store.rs:119-140 | Grouping by shard is the same as inserting in list order |
| ObjectStores.BucketsAreInsertions | crates/bacnet-object/src/store.rs:124-139 | Filling each shard from its own bucket gives the flat map of all insertions in list order |
| ObjectStores.ObjectStore.Count | crates/bacnet-object/src/store.rs:143-145 | The sum over the shards is the size of the flat map |
| ObjectStores.ObjectStore.Get | crates/bacnet-object/src/store.rs:148-156 | A reference is found exactly for keys of the flat map, and leads to its object |
| ObjectStores.StoreRefinesRegistry | crates/bacnet-object/src/store.rs:110-156 | After any insertions every look-up agrees with one map keyed by device and object, the last insertion winning |
| ObjectStores.CountRefinesRegistry | crates/bacnet-object/src/store.rs:143-145 | And so does the count |
| Calendar.CurrentUtc | crates/bacnet-object/src/device.rs:322-385 | The loops terminate for every clock reading and give a valid date whose closed-form day number is the count of days (32 bits); with the date's own 16-bit year exactly up to the end of 65535; hours, minutes and seconds add up to the second of the day; the weekday is that of the date |
| Calendar.DatesInOrder | crates/bacnet-object/src/device.rs:338-383 | Day numbers and dates are in the same order, and no two dates share a number |
| Calendar.DateGivesDayBack | crates/bacnet-object/src/device.rs:376-383 | Cutting the year to 16 bits loses the day exactly from the year 65536 on |
| Calendar.WeekdayOfDate | crates/bacnet-object/src/device.rs:334-344 | Counting days from a Thursday agrees with the weekday computed from year, month and day |
| Calendar.YearStep | crates/bacnet-object/src/device.rs:317-319 | The closed form counts 366 days for leap years and 365 for others |
| AnalogOutputs.AnalogOutput.EffectiveValue | crates/bacnet-object/src/analog_output.rs:59-66 | The loop finds the value of the first slot taken, or the default |
| AnalogOutputs.AnalogOutput.WriteProperty | crates/bacnet-object/src/analog_output.rs:129-167 | One write: the whole new state and the error, in the order the checks are made |
| AnalogOutputs.AcceptedExactly | crates/bacnet-object/src/analog_output.rs:129-167 | Which writes are accepted and the error of each other one: to the present value exactly Null and numbers of all four types, without a priority or at 1 to 16; the range of the priority is looked at first |
| AnalogOutputs.ChangesExactly | crates/bacnet-object/src/analog_output.rs:129-167 | A refused write changes nothing; an accepted one puts its number, or nothing for Null, into the slot of its priority, 16 when it has none, and leaves all other slots |
| AnalogOutputs.AnalogOutput.ForceWriteProperty | crates/bacnet-object/src/property.rs:34-70 | For this object the forced write leaves the same state as a write without priority, fails exactly when that does, and says WriteAccessDenied unless the present value was refused while in service |
| AnalogOutputs.AnalogOutput.ReadPriorityArray | crates/bacnet-object/src/analog_output.rs:107-112 | Reading the array at an index, with indices outside it drawn to its ends |
| AnalogOutputs.SlotFromHistory | crates/bacnet-object/src/analog_output.rs:136-149 | After any writes a slot holds a value exactly when its latest accepted write put it there |
| AnalogOutputs.PresentIsEffective | crates/bacnet-object/src/analog_output.rs:150 | The present value is the effective value after any writes, accepted, refused or relinquishing |
| AnalogOutputs.PresentValueFromHistory | crates/bacnet-object/src/analog_output.rs:129-152 | After any writes the present value is what the latest accepted write of the highest commanding priority put there, or the default when none commands |
| AnalogOutputs.SimulationDoesNotOverride | crates/bacnet-object/src/property.rs:34-47 | The simulation writes at priority 16 and cannot move the present value while a higher priority commands |
| AnalogOutputs.SimulationWrite | crates/bacnet-object/src/property.rs:34-47 | The simulation's write always succeeds and takes slot 16; it becomes the present value when slots 1 to 15 are free, and else leaves the present value as it was |

## Left out

- AckReader.RpmAckReadBack: nesting of arrays and lists is recovered only as its leaves, because the encoding writes no brackets around them. Raw `Any` bytes have no tag of their own; the second byte of a Boolean is dropped by `decode_application_value`, though the two encodings differ. `AckExact.RpmAckReadExactly` proves that exactly these and the out-of-range values are not read back. Bit strings and dates are re-read with the primitives' own decoders of `asn1.rs`, which lose less than the general one.
- TokenRingProgress.SingleTokenInTurn: one token only, and so without restarts: `TokenRingRestarts.OneTokenExactly` proves that this is exact. `TokenRingAllRuns.EveryRun` and `TokenRingLag.FewTokensNeverLag` cover the runs with restarts.
- TokenRingLiveness.EveryScheduleServes: counts moves of the token, not time: that a runnable master is run at all is the scheduler's part.
- TokenRing: all masters are assumed to have joined before the boot, and `max_master` is below 255, where the program's own sum overflows. Poll frames, `send_data`, `wait_for_token` and `recv_data` by outside callers are not steps of a run.
- SimEngines.SimEngine.Tick: the objects' own properties (the forced write of each output and the objects' `tick` methods), tick durations and the count of dispatched changes are not kept; all dispatches and the expiry of a tick share one reading of the clock. The forced write is proved for the Analog Output in `AnalogOutputs`, and the flat map of objects is the one that `ObjectStores` proves the shards to be.
- Floating point: rounding, NaN and conversions between widths in the engine, the alarms and the Analog Output.
- Value models, random numbers, and other writers of present values: a model is an arbitrary sequence of outputs.
- ChangeOfValue and CommandFailure alarms are placeholders in the program; the model keeps only that they do nothing.
- `from_utf8_lossy` on byte strings that are not UTF-8: strings are taken as their bytes.
- The release build's wrap-around where the model says `Abort`.
- `ComplexAck` and `ConfirmedRequest` headers, simple acknowledgements and the encoding of request bodies, which the program does not implement; the request grammar is written with its tag encoders.
- Segment windows and acknowledgements, and network layer, BVLL and SC codecs, Who-Is and the router: fixed layouts or single branches.
- Transports, tasks and channels, configuration, REST and metrics: connection handling and libraries.
- The Analog Output's fixed properties and the remaining object types, trend logs and schedules: look-ups and simple loops.
- The hash of the store: any function. Locks: each method is one atomic step.
- Wrap-around of the 64-bit token counter.
