# HDMI-CEC component for ESPHome, modelled in Dafny

This project models the core of an ESPHome component that puts a microcontroller on an HDMI-CEC bus.
CEC is the Consumer Electronics Control channel of HDMI 1.3a/1.4 Supplement 1.
The frame layout is section CEC 6, "Frame Description"; logical addresses are section CEC 10.2.
The project covers four parts:

- `CecFrame`, `CecProtocol`, `HdmiCecComponent` (`hdmi_cec.cpp`, `hdmi_cec.h`):
  - the frame layout;
  - the pin-interrupt receiver that turns pulse lengths into bits, bytes and queued frames;
  - `loop`, which filters frames, matches `on_message` triggers and answers some requests with built-in replies;
  - `send`, with its monitor-mode guard and bounded retries;
  - the `hdmi_cec.send` action.

  The decisions are pure functions in `CecProtocol`. The classes `HdmiCec`, `MessageTrigger` and `SendAction` update their fields in place, and their methods are proved against those functions.
- `CecDecoderSpec`, `CecDecoder` (`cec_decoder.cpp`, `cec_decoder.h`): the frame-to-text decoder.
  - The output is an address prefix, then `<opcode name>`, then one bracketed word per operand.
  - `CecDecoderSpec` gives every operand decoder as a function over a trace: `offset_`, `length_` and the words written.
  - The class `CecDecoder.Decoder` runs those steps in place on `line_`, `length_` and `offset_`.
- `Config` (`__init__.py`): the two YAML validators and the schema fields. It also models the code emitted by `to_code` and `send_action_to_code`, as a list of statement records.
- `DdcSink` (`ddc_sink.cpp`):
  - the EDID block checksum (VESA E-EDID Release A Revision 2, section 3.11);
  - the EDID header check (VESA E-EDID Release A Revision 2, section 3.3);
  - the decisions `read_physical_address` takes over the two blocks it reads.

`Common` holds byte types, Option/Result, and the hex and decimal text helpers.

Assumptions:
- The `Frame` accessors are not among the source files. The model takes:
  - `initiator_addr` as `f[0] >> 4`;
  - `destination_addr` as `f[0] & 0xF`;
  - `is_broadcast` as destination 15;
  - `opcode` as `f[1]`.

  These agree with how `hdmi_cec.cpp:34,90,107` uses them.
- `decode_value` (used at `hdmi_cec.cpp:197`) is not among the source files either. The model assumes it gives the two bytes of a 16-bit value, most significant first (`CecProtocol.DecodeValue`).
- The headers and the `.cpp` files disagree in places; the model follows the `.cpp` files:
  - `cec_decoder.h` declares `decode(uint8_t)`, but `cec_decoder.cpp` defines `decode()`;
  - `hdmi_cec.h` lacks `monitor_mode_`, `physical_address_`, `osd_name_bytes_` and their setters, which `hdmi_cec.cpp` and `__init__.py` use.

  `MessageTrigger` and `SendAction` follow `hdmi_cec.h`.

## Model

| member | source | states |
|---|---|---|
| Common.Hex2UpperRoundTrip | components/hdmi_cec/hdmi_cec.cpp:43 | the two `%02X` digits of a byte read back as that byte |
| Common.UpperHexDigitRoundTrip | components/hdmi_cec/hdmi_cec.cpp:43 | an upper-case hex digit reads back as its nibble |
| Common.LowerHexDigitRoundTrip | components/hdmi_cec/cec_decoder.cpp:226 | a lower-case `%x` digit reads back as its nibble |
| Common.Decimal | components/hdmi_cec/cec_decoder.cpp:260 | `%d` text is non-empty and made of decimal digits only |
| Common.DecimalRoundTrip | components/hdmi_cec/cec_decoder.cpp:260 | the `%d` text of a number reads back as that number |
| CecFrame.MakeFrame | components/hdmi_cec/hdmi_cec.cpp:32-36 | a frame is one header byte longer than its payload |
| CecFrame.MakeFrameFields | components/hdmi_cec/hdmi_cec.cpp:32-36 | header byte is `(i&0xF)<<4 \| (t&0xF)`; the initiator, destination and payload bytes read back from it, in order |
| CecFrame.MakeFrameOfFields | components/hdmi_cec/hdmi_cec.cpp:32-36 | every non-empty frame is the frame its own initiator, destination and payload build |
| CecFrame.HexTextLength | components/hdmi_cec/hdmi_cec.cpp:38-49 | the hex part of `to_string` has 3n-1 characters for n bytes |
| CecFrame.HexTextRoundTrip | components/hdmi_cec/hdmi_cec.cpp:38-49 | the `XX:XX:…` text parses back to the frame, so no two frames print alike |
| CecFrame.HexTextSnoc | components/hdmi_cec/hdmi_cec.cpp:41-48 | one more byte appends `:` and its two digits |
| CecFrame.ToHexString | components/hdmi_cec/hdmi_cec.cpp:38-49 | the loop builds exactly the hex text: `%02X` per byte, `:` between bytes and none after the last |
| CecProtocol.DeviceTypeOf | components/hdmi_cec/hdmi_cec.cpp:131-162 | the device type is in {0,1,3,4,5}: 0 exactly for address 0, 5 exactly for 5, 1 exactly for {1,2,9}, 3 exactly for {3,6,7,10}, and 4 for every other address |
| CecProtocol.MatchingExact | components/hdmi_cec/hdmi_cec.cpp:106-121 | an index is in the matched list iff it is below n and that trigger's filters accept the frame, and the list is strictly increasing (registration order, each once) |
| CecProtocol.MatchingMembers | components/hdmi_cec/hdmi_cec.cpp:106-121 | an index is matched iff it is below n and its trigger accepts the frame |
| CecProtocol.MatchingIncreasing | components/hdmi_cec/hdmi_cec.cpp:108-121 | matched indices are below n and strictly increasing: registration order, each at most once |
| CecProtocol.MatchingStep | components/hdmi_cec/hdmi_cec.cpp:108-121 | considering one more trigger appends its index iff it accepts |
| CecProtocol.NoFilterAcceptsAll | components/hdmi_cec/hdmi_cec.cpp:109-116 | a trigger with no filter set fires on every frame |
| CecProtocol.DestinationFilterNarrows | components/hdmi_cec/hdmi_cec.cpp:111 | a destination-only filter fires exactly for frames to that destination |
| CecProtocol.DataFilterExact | components/hdmi_cec/hdmi_cec.cpp:113-114 | a set data filter fires only when the opcode and operand bytes equal it, length included |
| CecProtocol.DecodeValue | components/hdmi_cec/hdmi_cec.cpp:197 | the two bytes, high first, recompose the 16-bit value |
| CecProtocol.BuiltinReplyShape | components/hdmi_cec/hdmi_cec.cpp:164-217 | there is a reply iff the data is non-empty and its opcode is not 0x00; a reply comes from the device's own address, starts with one of 0x9E, 0x90, 0x47, 0x84, 0x00, and goes to 15 for 0x83 and back to the requester otherwise |
| CecProtocol.FeatureAbortEchoesOpcode | components/hdmi_cec/hdmi_cec.cpp:207-215 | any other opcode is answered `[0x00, opcode, 0x00]` to the requester |
| CecProtocol.ReportPhysicalAddressContents | components/hdmi_cec/hdmi_cec.cpp:194-204 | Give Physical Address is answered by a broadcast to 15 of `0x84`, the two address bytes and the device type |
| CecProtocol.BuiltinExchangeTerminates | components/hdmi_cec/hdmi_cec.cpp:164-217 | two devices answering each other with built-in replies stop after at most two rounds |
| CecProtocol.FiringsOf | components/hdmi_cec/hdmi_cec.cpp:117-119 | there is one firing per matched trigger |
| CecProtocol.FiringsOfAt | components/hdmi_cec/hdmi_cec.cpp:118 | the k-th firing calls the k-th matched trigger with the frame's source, destination and data |
| CecProtocol.DroppedFrames | components/hdmi_cec/hdmi_cec.cpp:90-99 | frames for other devices outside promiscuous mode, and pings, fire no trigger and get no reply |
| CecProtocol.BuiltinRunsIff | components/hdmi_cec/hdmi_cec.cpp:90-127 | a built-in reply is sent iff the frame carries an opcode other than 0x00, is addressed to this device and not to 15, and fired no trigger |
| CecProtocol.TriggerFiresIff | components/hdmi_cec/hdmi_cec.cpp:90-121 | trigger k fires for a frame iff the frame is admitted, carries an opcode and trigger k accepts it |
| CecProtocol.QueueSnoc | components/hdmi_cec/hdmi_cec.cpp:83-128 | draining one more frame appends exactly its firings and its reply |
| CecProtocol.DrainStep | components/hdmi_cec/hdmi_cec.cpp:83-128 | the firings and replies of a drained queue prefix grow by those of the next frame |
| CecProtocol.PulseBit | components/hdmi_cec/hdmi_cec.cpp:398 | a pulse gives a bit value 0 or 1 |
| CecProtocol.RxFalling | components/hdmi_cec/hdmi_cec.cpp:371-385 | a falling edge keeps the receiver invariant |
| CecProtocol.RxStartBit | components/hdmi_cec/hdmi_cec.cpp:390-396 | a start bit keeps the receiver invariant |
| CecProtocol.RxBit | components/hdmi_cec/hdmi_cec.cpp:400-455 | every receiver state keeps the invariant for a bit: fewer than 8 pending bits that fit in the byte buffer, a header byte whenever the EOM bit is next, and a header in every queued frame |
| CecProtocol.RxStep | components/hdmi_cec/hdmi_cec.cpp:366-456 | one interrupt keeps the receiver invariant (`recv_bit_counter_ < 8` among it) |
| CecProtocol.RxRun | components/hdmi_cec/hdmi_cec.cpp:366-456 | any sequence of interrupts keeps the receiver invariant |
| CecProtocol.BitEdges | components/hdmi_cec/hdmi_cec.cpp:371-398 | every bit on the bus is two edges |
| CecProtocol.RxRunTwo | components/hdmi_cec/hdmi_cec.cpp:366-456 | running two more edges is two more steps |
| CecProtocol.PartialByte | components/hdmi_cec/hdmi_cec.cpp:401-416 | after fewer than 8 data bits the receiver is still in ReceivingByte, counts them, holds their value most significant first, and leaves the frame buffer and queue alone |
| CecProtocol.DataBit | components/hdmi_cec/hdmi_cec.cpp:401-416 | one data bit shifts `(buffer << 1) \| bit` and counts it; the eighth one appends the byte and moves to WaitingForEOM |
| CecProtocol.ByteAssembly | components/hdmi_cec/hdmi_cec.cpp:401-416 | eight data bits, most significant first, append their byte to the frame buffer and move to WaitingForEOM with counter and byte reset |
| CecProtocol.EndOfMessage | components/hdmi_cec/hdmi_cec.cpp:420-440 | a set EOM bit queues the buffered frame, empties the buffer and moves to WaitingForEOMAck; a clear one moves to WaitingForAck and queues nothing |
| CecProtocol.StartBitResets | components/hdmi_cec/hdmi_cec.cpp:390-396 | a pulse longer than 3500 us restarts reception: ReceivingByte, counter 0, byte 0, empty buffer, no ack queued |
| CecProtocol.AckOnlyForUs | components/hdmi_cec/hdmi_cec.cpp:420-425 | an ack is queued only for a frame whose destination is this device's address and not 15 |
| CecProtocol.MonitorNeverAcks | components/hdmi_cec/hdmi_cec.cpp:374-382 | in monitor mode no interrupt sequence ever drives an ack on the bus |
| HdmiCecComponent.HdmiCec.constructor | components/hdmi_cec/hdmi_cec.h:23-62 | a fresh component has all settings zero, no triggers, an idle receiver and empty queues |
| HdmiCecComponent.HdmiCec.SetPin | components/hdmi_cec/hdmi_cec.h:25 | sets the pin and nothing else |
| HdmiCecComponent.HdmiCec.SetAddress | components/hdmi_cec/hdmi_cec.h:26-27 | sets the address, which `address()` then returns, and nothing else |
| HdmiCecComponent.HdmiCec.SetPhysicalAddress | components/hdmi_cec/__init__.py:88 | sets the physical address and nothing else |
| HdmiCecComponent.HdmiCec.SetPromiscuousMode | components/hdmi_cec/hdmi_cec.h:28 | sets promiscuous mode and nothing else |
| HdmiCecComponent.HdmiCec.SetMonitorMode | components/hdmi_cec/__init__.py:90 | sets monitor mode and nothing else |
| HdmiCecComponent.HdmiCec.SetLogPings | components/hdmi_cec/__init__.py:91 | sets ping logging and nothing else |
| HdmiCecComponent.HdmiCec.SetOsdNameBytes | components/hdmi_cec/__init__.py:96 | sets the OSD name bytes and nothing else |
| HdmiCecComponent.HdmiCec.AddMessageTrigger | components/hdmi_cec/hdmi_cec.h:29 | appends the trigger at the end of the list, nothing else changes |
| HdmiCecComponent.HdmiCec.SendFrame | components/hdmi_cec/hdmi_cec.cpp:246 | one transmission attempt, whose outcome is the medium's for that attempt |
| HdmiCecComponent.HdmiCec.Send | components/hdmi_cec/hdmi_cec.cpp:219-260 | in monitor mode returns false and transmits nothing; otherwise (MAX_ATTEMPTS = 5, line 22) sends the message once, tries 1 to 5 times, true iff the last attempt succeeded, every earlier attempt failed, and false only after 5 failures |
| HdmiCecComponent.HdmiCec.TryBuiltinHandler | components/hdmi_cec/hdmi_cec.cpp:164-217 | sends exactly the built-in reply of the request, if any, unless in monitor mode |
| HdmiCecComponent.HdmiCec.FireTriggers | components/hdmi_cec/hdmi_cec.cpp:106-121 | fires exactly the accepting triggers, in registration order, and reports whether any fired |
| HdmiCecComponent.HdmiCec.HandleFrame | components/hdmi_cec/hdmi_cec.cpp:87-127 | one frame's firings and reply are those of `FrameFirings`/`FrameReply` |
| HdmiCecComponent.HdmiCec.DispatchFront | components/hdmi_cec/hdmi_cec.cpp:84-127 | pops the queue's front frame and handles it |
| HdmiCecComponent.HdmiCec.Loop | components/hdmi_cec/hdmi_cec.cpp:82-129 | empties the receive queue; the triggers fired and the replies sent are those of the queued frames, in queue order |
| HdmiCecComponent.HdmiCec.ResetStateVariables | components/hdmi_cec/hdmi_cec.cpp:458-463 | clears the bit counter, the byte buffer and the frame buffer, nothing else |
| HdmiCecComponent.HdmiCec.GpioIntr | components/hdmi_cec/hdmi_cec.cpp:366-456 | one interrupt updates the receiver exactly as `RxStep` and keeps its invariant |
| HdmiCecComponent.HdmiCec.OnFallingEdge | components/hdmi_cec/hdmi_cec.cpp:371-385 | the falling-edge branch, as `RxFalling` |
| HdmiCecComponent.HdmiCec.OnStartBit | components/hdmi_cec/hdmi_cec.cpp:390-396 | the start-bit branch, as `RxStartBit` |
| HdmiCecComponent.HdmiCec.OnBit | components/hdmi_cec/hdmi_cec.cpp:400-455 | the receiver-state switch, as `RxBit` |
| HdmiCecComponent.FiltersOf | components/hdmi_cec/hdmi_cec.cpp:108-116 | one filter per trigger, in order, each the trigger's own four optional fields |
| HdmiCecComponent.MessageTrigger.constructor | components/hdmi_cec/hdmi_cec.h:69 | a new trigger has no filter and is appended to its parent's triggers, nothing else of the parent changes |
| HdmiCecComponent.MessageTrigger.SetSource | components/hdmi_cec/hdmi_cec.h:70 | sets the source filter only |
| HdmiCecComponent.MessageTrigger.SetDestination | components/hdmi_cec/hdmi_cec.h:71 | sets the destination filter only |
| HdmiCecComponent.MessageTrigger.SetOpcode | components/hdmi_cec/hdmi_cec.h:72 | sets the opcode filter only |
| HdmiCecComponent.MessageTrigger.SetData | components/hdmi_cec/hdmi_cec.h:73 | sets the data filter only |
| HdmiCecComponent.SendAction.constructor | components/hdmi_cec/hdmi_cec.h:84 | a new action has its parent, no source and empty data |
| HdmiCecComponent.SendAction.SetSource | components/hdmi_cec/hdmi_cec.h:87 | sets the source only |
| HdmiCecComponent.SendAction.SetDestination | components/hdmi_cec/hdmi_cec.h:88 | sets the destination only |
| HdmiCecComponent.SendAction.SetData | components/hdmi_cec/hdmi_cec.h:85 | sets the data template only |
| HdmiCecComponent.SendAction.Play | components/hdmi_cec/hdmi_cec.h:90-94 | one send of the evaluated data to the destination, from the set source or else the parent's address; nothing else of the parent changes |
| CecDecoderSpec.TwoUnpack | components/hdmi_cec/cec_decoder.h:125 | `& 0xFF` and `>> 8` recover both halves of `Two` |
| CecDecoderSpec.ThreeUnpack | components/hdmi_cec/cec_decoder.h:126-128 | `& 0xFF` and `>> 8` recover the first type and `Two` of the others from `Three` |
| CecDecoderSpec.FindOpcodeNameUnknown | components/hdmi_cec/cec_decoder.cpp:414-420 | the name is "?" exactly for the opcodes missing from the table |
| CecDecoderSpec.TextUpToNul | components/hdmi_cec/cec_decoder.cpp:211 | the text is the bytes before the first zero byte, as characters and in order, and contains no zero byte; it stops early only at a zero byte |
| CecDecoderSpec.HexLower | components/hdmi_cec/cec_decoder.cpp:311 | `%06x` gives n lower-case hex digits |
| CecDecoderSpec.LineTextBounds | components/hdmi_cec/cec_decoder.cpp:427 | `line_` holds at most 255 characters, a prefix of the brackets written, all of them when they fit |
| CecDecoderSpec.LineTextSnoc | components/hdmi_cec/cec_decoder.cpp:426-430 | one bounded `snprintf` of "[w]" adds as much of it as the room left allows |
| CecDecoderSpec.CompositeTwo | components/hdmi_cec/cec_decoder.cpp:142-149 | a packed pair decodes its first operand, then its second only if the first answered true |
| CecDecoderSpec.CompositeThree | components/hdmi_cec/cec_decoder.cpp:142-149 | a packed triple decodes its operands in order and stops at the first false |
| CecDecoderSpec.DecodeShape | components/hdmi_cec/cec_decoder.cpp:406-458 | every decode starts with the address prefix; no opcode gives "Ping", an unknown opcode "<?>", a known one "<name>" and then operand text |
| CecDecoderSpec.PhysicalAddressRoundTrip | components/hdmi_cec/cec_decoder.cpp:216-229 | the `a.b.c.d` word reads back, nibble by nibble, as the two bytes |
| CecDecoderSpec.AudioStatusRoundTrip | components/hdmi_cec/cec_decoder.cpp:176-185 | the mute digit is bit 7 and the two hex digits are the low 7 bits; together they give back the byte |
| CecDecoderSpec.HexLowerRoundTrip | components/hdmi_cec/cec_decoder.cpp:311 | n lower-case hex digits read back as the value |
| CecDecoderSpec.VendorIdRoundTrip | components/hdmi_cec/cec_decoder.cpp:302-315 | the 24-bit id packs the three bytes without overlap and its `ID=%06x` digits read back as the id |
| CecDecoderSpec.DescriptorFields | components/hdmi_cec/cec_decoder.cpp:244-246 | the format (bits 6..3) and channel count (bits 2..0) are disjoint fields of byte 0 |
| CecDecoderSpec.RatesTextPow2 | components/hdmi_cec/cec_decoder.cpp:247-253 | a single set rate bit lists exactly the rate it stands for |
| CecDecoderSpec.WidthsTextPow2 | components/hdmi_cec/cec_decoder.cpp:256-262 | a single set width bit i lists exactly `16+4i` bits |
| CecDecoderSpec.DescriptorWidthsOnlyForLpcm | components/hdmi_cec/cec_decoder.cpp:254-263 | the third descriptor byte changes the word only for format 1 (LPCM) |
| CecDecoderSpec.FollowsTransitive | components/hdmi_cec/cec_decoder.cpp:426-430 | "only appends and never moves back" composes |
| CecDecoderSpec.AppendWordContinues | components/hdmi_cec/cec_decoder.cpp:426-430 | `append_operand` only appends, keeps `length_` the text's length, and answers true only below 256 characters |
| CecDecoderSpec.TableWordContinues | components/hdmi_cec/cec_decoder.h:139-143 | the table overload keeps that invariant |
| CecDecoderSpec.AudioFormatRunContinues | components/hdmi_cec/cec_decoder.cpp:167-174 | the audio format loop keeps that invariant |
| CecDecoderSpec.DescriptorRunContinues | components/hdmi_cec/cec_decoder.cpp:236-268 | the descriptor loop keeps that invariant |
| CecDecoderSpec.UiCommandContinues | components/hdmi_cec/cec_decoder.cpp:275-300 | the UI command decoder keeps that invariant |
| CecDecoderSpec.OperandContinues | components/hdmi_cec/cec_decoder.cpp:155-320 | every single-operand decoder keeps that invariant |
| CecDecoderSpec.OperandsContinue | components/hdmi_cec/cec_decoder.cpp:142-149 | every packed operand code keeps that invariant |
| CecDecoderSpec.TableWordAppends | components/hdmi_cec/cec_decoder.h:139-143 | reads the byte at `offset_`, writes `strings[v]` or "?" for v out of range, and consumes exactly that byte |
| CecDecoderSpec.AudioFormatRunConsumes | components/hdmi_cec/cec_decoder.cpp:167-174 | one byte consumed per word written; true only once the frame is exhausted |
| CecDecoderSpec.AudioFormatRunWords | components/hdmi_cec/cec_decoder.cpp:167-174 | each consumed byte is named, in order, by the word written for it |
| CecDecoderSpec.AudioFormatByteAt | components/hdmi_cec/cec_decoder.cpp:170-171 | one consumed byte is named by its word |
| CecDecoderSpec.AudioFormatWordAt | components/hdmi_cec/cec_decoder.cpp:170-171 | the k-th word names the k-th consumed byte |
| CecDecoderSpec.DescriptorRunConsumes | components/hdmi_cec/cec_decoder.cpp:242-265 | three bytes consumed per word written; stops with fewer than three bytes left or on the first false |
| CecDecoderSpec.FeatureAbortWithoutOperands | components/hdmi_cec/cec_decoder.cpp:435-458 | frame 40:00 reads an uninitialised `line_` as written; corrected, it decodes to "PlaybackDev1 to TV: <Feature Abort>" |
| CecDecoderSpec.FeatureAbortText | components/hdmi_cec/cec_decoder.cpp:411-450 | the prefix and the name join to that text |
| CecDecoderSpec.DecodeTextCorrects | components/hdmi_cec/cec_decoder.cpp:435-458 | wherever `decode` as written is defined, the corrected decode gives the same text |
| CecDecoderSpec.DecodedLengthCounts | components/hdmi_cec/cec_decoder.cpp:452-455 | after decoding, `length_` counts the operand text and `offset_` has not moved below 2 |
| CecDecoder.Decoder.constructor | components/hdmi_cec/cec_decoder.h:25 | a fresh decoder has `length_` 0, `offset_` 2 and no text |
| CecDecoder.Decoder.AppendOperand | components/hdmi_cec/cec_decoder.cpp:426-430 | appends the bounded "[word]" to `line_`, adds its full length to `length_` and `incr` to `offset_`, true iff `length_ < 256` and `offset_ <` frame size |
| CecDecoder.Decoder.AppendTableOperand | components/hdmi_cec/cec_decoder.h:139-143 | the table lookup, as `TableWord` |
| CecDecoder.Decoder.DoAudioFormat | components/hdmi_cec/cec_decoder.cpp:167-174 | the loop, as `AudioFormatRun` |
| CecDecoder.Decoder.DoAudioStatus | components/hdmi_cec/cec_decoder.cpp:176-185 | as `AudioStatusOperand` |
| CecDecoder.Decoder.DoFeatureOpcode | components/hdmi_cec/cec_decoder.cpp:200-206 | as `FeatureOpcodeOperand` |
| CecDecoder.Decoder.DoOsdString | components/hdmi_cec/cec_decoder.cpp:208-214 | as `OsdStringOperand` |
| CecDecoder.Decoder.DoPhysicalAddress | components/hdmi_cec/cec_decoder.cpp:216-229 | as `PhysicalAddressOperand` ("Off", "?" or `a.b.c.d`) |
| CecDecoder.Decoder.DoShortAudioDescriptor | components/hdmi_cec/cec_decoder.cpp:236-268 | the descriptor loop, as `DescriptorRun` |
| CecDecoder.Decoder.DoUiCommand | components/hdmi_cec/cec_decoder.cpp:275-300 | as `UiCommandOperand` |
| CecDecoder.Decoder.DoVendorId | components/hdmi_cec/cec_decoder.cpp:302-315 | as `VendorIdOperand` |
| CecDecoder.Decoder.DoOperand | components/hdmi_cec/cec_decoder.cpp:155-320 | the specialisation for an operand type, as `Operand` |
| CecDecoder.Decoder.DoOperands | components/hdmi_cec/cec_decoder.cpp:142-149 | the generic packed decode, as `Operands` |
| CecDecoder.Decoder.Decode | components/hdmi_cec/cec_decoder.cpp:435-458 | the corrected decode returns exactly `DecodeText` of the frame |
| CecDecoder.RatesSuffix | components/hdmi_cec/cec_decoder.cpp:247-253 | the rates loop builds `RatesText` |
| CecDecoder.WidthsSuffix | components/hdmi_cec/cec_decoder.cpp:256-262 | the widths loop builds `WidthsText` |
| CecDecoder.DescriptorText | components/hdmi_cec/cec_decoder.cpp:243-263 | one descriptor word, as `DescriptorWord` |
| Config.ValidateBytesFromCorrect | components/hdmi_cec/__init__.py:26-29 | accepted iff every element from k on is an integer 0..255; the bytes keep order and length; otherwise the first bad index is named |
| Config.ValidateDataArrayCorrect | components/hdmi_cec/__init__.py:26-29 | a list is accepted iff every element is a byte, giving those bytes in order (empty allowed); a non-list gets "data must be a list of bytes" |
| Config.ValidateDataArrayIdempotent | components/hdmi_cec/__init__.py:26-29 | accepted bytes validate to themselves again |
| Config.FirstBadChar | components/hdmi_cec/__init__.py:39-43 | the reported position is within the string |
| Config.FirstBadCharCorrect | components/hdmi_cec/__init__.py:39-43 | none iff every character is in 0x20..0x7D; else the first such character |
| Config.ValidateOsdName | components/hdmi_cec/__init__.py:31-45 | the loop gives exactly the validator's answer |
| Config.OsdNameCheckCorrect | components/hdmi_cec/__init__.py:31-45 | accepted iff a string of 1 to 14 characters each in 0x20..0x7D; an accepted name comes back unchanged |
| Config.OsdNameCheckIdempotent | components/hdmi_cec/__init__.py:45 | validating an accepted name again gives the same result |
| Config.TildeRejected | components/hdmi_cec/__init__.py:40-43 | '~' (0x7E) is rejected although the message range ends at 0x7e; '}' is accepted |
| Config.IntField | components/hdmi_cec/__init__.py:62-73 | accepted iff an integer in range, value kept; otherwise out of range or wrong type |
| Config.BoolField | components/hdmi_cec/__init__.py:64-67 | an absent flag takes its default; a present one is accepted iff boolean |
| Config.ValidateConfigFields | components/hdmi_cec/__init__.py:58-78 | a validated configuration keeps its id and its address (in 0..15) and physical address; each flag is its given boolean or false when absent; the name is the given one or "esphome", valid in length and characters; one entry per `on_message` entry, each keeping that entry's fields |
| Config.ValidateMessageCorrect | components/hdmi_cec/__init__.py:68-76 | an `on_message` entry is accepted iff source and destination are absent or integers in 0..15, opcode absent or in 0..255, and data absent or a valid byte list; the accepted entry keeps the trigger id, each present key's value, no absent key, and the validated data bytes |
| Config.ValidateMessagesKeep | components/hdmi_cec/__init__.py:68-76 | the entry list is accepted iff every entry is, and the j-th validated entry keeps the fields of the j-th raw entry |
| Config.ValidateMessagesLength | components/hdmi_cec/__init__.py:68-76 | one validated entry per `on_message` entry |
| Config.AsciiBytesOfOsdName | components/hdmi_cec/__init__.py:93-94 | an accepted name encodes to one byte per character, its code |
| Config.ToCode | components/hdmi_cec/__init__.py:80-125 | the loop emits the component statements, then each entry's block, in order |
| Config.MessageCode | components/hdmi_cec/__init__.py:99-125 | one round emits exactly the entry's block |
| Config.ConstructedTriggersAppend | components/hdmi_cec/__init__.py:98-99 | the constructed triggers of joined code are those of each part, in order |
| Config.TriggerCodeConstructs | components/hdmi_cec/__init__.py:99 | each entry's block constructs exactly its own trigger |
| Config.NoTriggerConstructed | components/hdmi_cec/__init__.py:81-96 | code without trigger constructions constructs no trigger |
| Config.TriggersInDeclarationOrder | components/hdmi_cec/__init__.py:98-125 | the triggers are constructed one per entry, in declaration order |
| Config.ToCodeTriggers | components/hdmi_cec/__init__.py:80-125 | `to_code` constructs exactly the configured triggers, in order |
| Config.TriggerCodeFilters | components/hdmi_cec/__init__.py:99-125 | construction first, automation with source/destination/data last, and a filter setter iff the key is present |
| Config.DefaultsEmitted | components/hdmi_cec/__init__.py:64-96 | omitted flags and name are still emitted, as false and as the bytes of "esphome" |
| Config.DefaultOsdNameBytes | components/hdmi_cec/__init__.py:93-94 | "esphome" encodes to its seven ASCII codes |
| Config.ValidateSendActionBounds | components/hdmi_cec/__init__.py:130-135 | an accepted action has destination and data, a source iff given, and constant addresses as given |
| Config.SendActionCodeShape | components/hdmi_cec/__init__.py:137-152 | construction first, a source setter iff a source is given, destination and data setters last |
| DdcSink.ValidateEdidBlock | components/hdmi_cec/ddc_sink.cpp:85-91 | the wrapping `uint8_t` sum accepts iff the bytes sum to 0 mod 256 (an empty block passes) |
| DdcSink.ByteSumAppend | components/hdmi_cec/ddc_sink.cpp:86-89 | the sum of joined blocks is the sum of the sums |
| DdcSink.ChecksumFix | components/hdmi_cec/ddc_sink.cpp:85-91 | a last byte of (256 - sum of the others) mod 256 makes the block pass |
| DdcSink.ByteSumRemove | components/hdmi_cec/ddc_sink.cpp:86-89 | removing one byte takes it off the sum |
| DdcSink.ByteSumPermutation | components/hdmi_cec/ddc_sink.cpp:86-89 | the sum does not depend on byte order |
| DdcSink.ChecksumOrderIndependent | components/hdmi_cec/ddc_sink.cpp:85-91 | the checksum verdict does not depend on byte order |
| DdcSink.ValidateEdidHeaderAsWritten | components/hdmi_cec/ddc_sink.cpp:66-83 | the header check as written rejects every buffer |
| DdcSink.ValidateEdidHeader | components/hdmi_cec/ddc_sink.cpp:66-83 | corrected: accepts iff at least 8 bytes that are 00 FF FF FF FF FF FF 00 |
| DdcSink.ReadPhysicalAddress | components/hdmi_cec/ddc_sink.cpp:13-54 | never an address; warns iff the header is wrong, iff the checksum fails, iff there is no extension, iff the extension is not CEA-861; reads the extension iff byte 0x7E is non-zero |

## Left out

- Bit-banging and real time are not modelled: `send_frame_`, `send_start_bit_`, `send_bit_`, `send_and_read_ack_`, the pin-mode switches, `micros`, `delay_microseconds_safe` and `InterruptLock`. `send_frame_` is an oracle indexed by attempt number.
- The signal-free-time wait of `send` (hdmi_cec.cpp:230-243) depends on the clock only and is not modelled.
- Pulse lengths are given as numbers of microseconds per interrupt rather than read from a clock. The 1500 us ack pulse is counted, not timed.
- `setup` and `dump_config` are not modelled. They only configure the pin and log.
- Logging is left out, including the `ESP_LOG` calls, `log_pings` (stored only) and the `to_string` decoder suffix when it is logged.
- Concurrency between the interrupt and `loop` is not modelled; `recv_queue_` is a plain sequence, and the send mutex is left out.
- The I2C transport of `ddc::Sink` is left out: `read_register`, `set_segment_pointer_` and `set_i2c_address`. The two blocks are inputs. `ddc_display.h` and `ddc_reader.h` are not part of this model.
- The undefined-behaviour corners of the decoder are preconditions, or the `Undefined` outcome, rather than modelled:
  - `frame_[offset_]` past the end in the table overload and `UICommand`;
  - `snprintf` once `length_` reaches 256;
  - `OsdString` with `offset_` past the frame end, where the `snprintf` size wraps around.
- OsdStringOperand: takes the bytes up to the first zero byte or the frame end, which is what the size bound of `snprintf` at cec_decoder.cpp:211 writes. When the frame holds no zero byte, `%s` still scans past the end of the vector to compute its return value; that over-read is not modelled.
- HdmiCecComponent.SendAction.constructor: `destination_` has no initialiser (hdmi_cec.h:99); the model starts it at 0. The generated code always calls `set_destination` before the action can run.
- HdmiCecComponent.HdmiCec.Loop: a trigger firing is only recorded in `fired`. In the source, `trigger->trigger(...)` (hdmi_cec.cpp:118) runs the user's automation synchronously inside `loop`, and an `hdmi_cec.send` there transmits at that point. So `Loop`'s "the outbox grows by exactly the built-in replies" holds only under this abstraction; `FireTriggers` is abstracted the same way.
- `snprintf` layout beyond the 255-character clip of `line_` is not modelled. `sprintf` into fixed local buffers is taken as writing the whole word.
- DescriptorRunConsumes: states the bytes consumed and the offsets only, not the content of each descriptor word; `CecDecoder.DescriptorText` is proved equal to `DescriptorWord`.
- ESPHome library internals are abstracted:
  - `cv.*` validators are reduced to their range and type checks;
  - no hex-string integers and no boolean spellings;
  - only the first error is reported, not aggregated;
  - the pin schema is an opaque number;
  - `build_automation` and `cg.templatable` are single records.
- CecProtocol.DecodeValue: assumes big-endian two bytes, because `decode_value` is not among the source files.
- DdcSink.ReadPhysicalAddress: uses the corrected header check, so its header warning follows the intended check; with the code as written that warning is always logged (see Findings).

## Findings

| source | as written | input that shows it | evidently intended | confidence | as-written member | corrected member |
|---|---|---|---|---|---|---|
| components/hdmi_cec/cec_decoder.cpp:435-458 | `decode` appends `&line_[0]`, but `line_` is never initialised, so when no operand word is written the text comes from an indeterminate buffer | frame 40:00 (Feature Abort without operands) | the operand text is empty and the result is "PlaybackDev1 to TV: <Feature Abort>" | not executed | CecDecoderSpec.DecodeTextAsWritten, CecDecoderSpec.FeatureAbortWithoutOperands | CecDecoderSpec.DecodeText, CecDecoderSpec.DecodeTextCorrects, CecDecoder.Decoder.Decode |
| components/hdmi_cec/ddc_sink.cpp:71-82 | at i = 0 the loop demands `data[0] == 0x00` and `data[0] == 0xFF`, so it rejects every buffer; index 7 is never inspected | 00 FF FF FF FF FF FF 00 | accept exactly the header 00 FF FF FF FF FF FF 00 | not executed | DdcSink.ValidateEdidHeaderAsWritten | DdcSink.ValidateEdidHeader |
