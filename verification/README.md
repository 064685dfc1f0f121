# The CSW protocol of the AVCOM spectrum analyzers

The repository speaks the CSW protocol of AVCOM SBS spectrum analyzers twice: in C, as calls that fill
and read byte buffers (`etc/avcom-example-code/api/aovspecan.c`), and in JavaScript, as declarative
packet schemas and text builders (`lib/`). This project models both sides and proves what each one
keeps over whole streams and whole runs, and where the two agree.

A packet is STX (0x02), a big-endian LEN that counts DTYPE to ETX, DTYPE, data, ETX (0x03).

- `Bytes`: C conversions (`unsigned char`, signed `char`, 32-bit words) and big-endian integers.
- `Framing`, `Reassembly`: the byte-at-a-time receiver `AOV_recData` as the loop it is, the declarative
  description of one call, and repeated calls over whole streams.
- `Schemas`, `Analyzer`, `Waveform`, `Handles`: the JavaScript schemas as lists of fields, the C decoding
  by fixed offsets, their agreement, 12-bit unpacking, amplitudes, the frequency axis, the level windows.
- `ChangeSettings`: validation, the change-settings packet built in place, the way
  back through the schema.
- `RegistrySpec`, `RegistryProofs`, `Lifecycle`, `Registry`, `Addresses`: the global handle list and its
  connections, as a state machine on values, its invariants, what each call answers and changes, the class
  that refines it, and the keys hosts are compared by.
- `SessionSpec`, `LockStep`, `Session`, `Describing`: calls on an open connection, whole runs of calls, the
  methods that build, send and read, and the dialogue of a registration.
- `Trace`, `Devices`, `Acceptance`: sweeps and analyzers in their own terms, from the values that the
  analyzer puts into its frames to those that a spectrum call shows and a registration stores, and the
  requests that are accepted for a registered analyzer. `Descriptions`: frames for every analyzer and sweep.
- `Splitter`: the generic frame splitter and the dispatch on DTYPE. `Boot`: boot-loader checksums.
- `Decimals`, `Hertz`, `HertzTexts`, `Hex`, `Bandwidths`, `Requests`: number texts, `normalizeHz` and the
  texts it takes, hex texts, the bandwidth names, and the text-growing packet builder.

Outcomes of system calls (sockets, address lookup, memory), uninitialised variables and buffers, and
what the analyzer sends are arguments, so that every result holds for all of them.

## Where the code departs from its intent

The model follows the code. Each departure has a member that states exactly when the code still meets
the intent, and several have a concrete input that shows the difference.

- When the peer closes the connection before a whole frame has come, at whatever point, the receiver
  reports success with the bytes it has, the last one stored twice (`SuccessMeansComplete`,
  `HalfFrameReported`). One byte short of a frame the result even has the declared size
  (`DeclaredSizeReported`, `TruncationAccepted`). A spectrum call then computes its trace from an
  uninitialised buffer (`SpectrumMeansFrame`, `TraceOfNothing`).
- The upper frequency limit is not checked; the check at line 644 names the lower one twice
  (`NoUpperLimit`). A frequency comes back from the wire exactly if it fits 32 bits (`SettingsSurvive`,
  `FrequencyLost`).
- The duplicate test of a registration lacks braces: a duplicate asked for with a port number outside
  16 bits stays listed (`RegisterAtomic`, `OversizedPortListsTwice`).
- A socket leaks if a registration fails after `socket` and closing fails too, or if an unregistration or
  deinitialisation cannot close: the handle is dropped all the same. Nothing closes such a socket later
  (`StepLost`, `RunLost`, `FailedRegistrationLeaks`).
- A spectrum call takes any packet for its answer: unless it is a waveform, the call succeeds and keeps the
  settings and amplitudes of an earlier one (`TraceOfAnswer`).
- Hosts are compared by the 14 bytes of `sa_data`: two IPv6 hosts of one network are taken for the same
  one (`SaDataExact`, `LookupExact`, `NeighbourTaken`).
- A registration whose closing at the end fails, and nothing else, returns an error with its handle listed
  and connected (`ConnectedOnFailure`, `RegisterAtomic`).
- An acknowledgement is refused only if all three of its bytes differ (`AckCheckExact`,
  `StrangerAccepted`), a front panel's answer only if both its bytes do (`IntroductionCode`); in lock step with an analyzer that acknowledges correctly this is enough
  (`SetterInStep`, `TriggerInStep`).
- The LNB setting of a waveform response is taken from the high byte of the internal extender offset,
  four bytes in front of CurLNB (`WaveformAgrees`, `LnbExact`, `LnbMisrecorded`).
- A centre frequency or span with its top bit set is stored as a negative number (`FaithfulStores`) and
  sign-extended for the axis where `long` has 64 bits (`ULongExact`). A registration stores a level of -128
  from firmware before 3.0 as 128 (`FaithfulStores`).
- The JavaScript side reads reference levels without their sign (`ToDbAgrees`), and gives 12-bit
  waveforms the schema of 8-bit ones (`TwelveBitMisparsed`).
- The trigger loop never ends exactly if the peer closes the connection and every status byte looked at,
  those left over in the buffer included, is 3 (`TriggerNeverEnds`, `TriggerSpins`, `TriggerHangs`).
- A level window wraps around if the fixed gain is too large (`WindowExact`).
- `normalizeHz` prints very large and very small numbers with an exponent, which it cannot read back
  (`MeaningPreserved`, `Idempotent`, `ExponentMisread`).
- `makeChangeConfig` takes zeros for missing arguments (`TwoBuilders`, `ZeroSpanWidened`), though not the
  text 0 (`DefaultPacket`), and a negative
  number or a fraction of a wire unit cuts its packet short (`MadeExactly`, `NegativeLevelCuts`,
  `HalfUnitCuts`).
- `AVCOM_SA_SetLNB` takes any voltage but 0 for 18 V, `AVCOM_SA_SetAllSettings` only 18
  (`LnbBytesAgree`, `SupplySent`).

## Model

| member | source | states |
|---|---|---|
| `Framing.Connection.RecData` | `etc/avcom-example-code/api/aovspecan.c:137-185` | the receive loop returns the code, the stored bytes, the size and the unread stream of the declarative description `Receive`, and leaves the rest of the buffer as it was; it ends because the stream shrinks |
| `Framing.ScanIsReceive` | `etc/avcom-example-code/api/aovspecan.c:153-179` | on every stream, whatever the byte variable held before, the automaton of dropping, storing and counting bytes does what the description says: skip to the first STX, take max(LEN, 1) + 3 bytes, leave the suffix |
| `Framing.ScanCollects` | `etc/avcom-example-code/api/aovspecan.c:158-172` | once synchronised, the automaton takes exactly the declared number of bytes, or all there are and the last one again |
| `Framing.ShortestFrame` | `etc/avcom-example-code/api/aovspecan.c:163-172` | LEN 0 and LEN 1 take exactly one byte behind the header, on every stream |
| `Framing.ErrorReported` | `etc/avcom-example-code/api/aovspecan.c:175-184` | an error of the socket is reported, as it is, exactly if no whole frame comes before it; on an empty closed stream the uninitialised byte counts if it is STX |
| `Reassembly.DecodeEncode` | `etc/avcom-example-code/api/aovspecan.c:153-179` | any list of frames, each behind noise free of STX, comes back frame by frame and in order, with STX or ETX bytes inside the payload or not |
| `Reassembly.EncodeDecode` | `etc/avcom-example-code/api/aovspecan.c:153-179` | on every stream no byte is lost or invented and no whole frame is left behind |
| `Reassembly.UniqueDecoding` | `etc/avcom-example-code/api/aovspecan.c:153-179` | framing is uniquely decodable: equal streams were the same frames, noise and tail |
| `Reassembly.NoiseLimit` | `etc/avcom-example-code/api/aovspecan.c:155-161` | a frame is found behind its noise if and only if the noise is free of STX |
| `Reassembly.Segmentation` | `etc/avcom-example-code/api/aovspecan.c:153-179` | decoding a prefix and carrying the unread bytes over gives the frames of the whole, wherever the stream is cut |
| `Reassembly.CallsReturnFrames` | `etc/avcom-example-code/api/aovspecan.c:153-184` | call i on a stream of frames succeeds with exactly frame i and leaves exactly what was sent after it |
| `Reassembly.SuccessMeansComplete` | `etc/avcom-example-code/api/aovspecan.c:155-184` | success means that a whole frame was there exactly if it was or the stream ends in an error: a peer that closes too early always leads to success |
| `Reassembly.HalfFrameReported` | `etc/avcom-example-code/api/aovspecan.c:155-184` | a stream closed in the middle of a frame for which the call succeeds with five bytes that are no frame |
| `Reassembly.DeclaredSizeReported` | `etc/avcom-example-code/api/aovspecan.c:155-184` | what a successful call stored has the declared size of a frame exactly if the stream held one, or the peer closed one byte short of one |
| `Reassembly.TruncationAccepted` | `etc/avcom-example-code/api/aovspecan.c:155-184` | a stream cut short by one byte that passes for a well-formed frame |
| `Splitter.TesterAccepts` | `lib/response.js:198-215` | the splitter accepts exactly the inputs with enough bytes and STX and ETX where LEN puts them |
| `Splitter.SplitReframe` | `lib/response.js:198-215` | for every DTYPE and up to 65533 bytes of data, splitting the frame returns LEN, DTYPE and data |
| `Splitter.ReframeSplit` | `lib/response.js:198-215` | re-framing what was split restores the bytes exactly if they were one well-formed frame |
| `Splitter.ReceivedFrameSplits` | `lib/response.js:198-215` | of the frames the receiver can return, the splitter accepts exactly the well-formed ones |
| `Splitter.TextRoundTrip` | `lib/response.js:152-159` | every text message of up to 65533 bytes is dispatched and comes back |
| `Descriptions.ParserAccepts` | `lib/response.js:168-195` | of the responses with DTYPE 0x07, 0x0D and 0x09 the parser accepts exactly those of at least 88, 48 and 344 bytes with STX first and ETX at 87, 47 and 343 |
| `Descriptions.ParserReadsDevice` | `lib/response.js:168-195` | from the descriptions of every analyzer the parser reads, by name, the values a registration stores |
| `Descriptions.ParserReadsSweep` | `lib/response.js:112-128` | from the 8-bit frame of every sweep the parser reads the sweep that a spectrum call shows |
| `Splitter.TwelveBitMisparsed` | `lib/response.js:176-194` | a 12-bit waveform frame is accepted exactly if its byte 343 happens to be 0x03, and then only 320 of its 480 sample bytes are data |
| `Schemas.WalkAccepts` | `lib/response.js:168-195` | a schema accepts exactly the inputs that are long enough and meet its assertions |
| `Schemas.WalkReads` | `lib/response.js:168-195` | reading field by field gives each name the bytes found by adding up the widths of the fields before it |
| `Schemas.FramedAccepts` | `lib/response.js:168-195` | a framed schema without assertions of its own accepts exactly the inputs that are long enough with STX and ETX in their places |
| `Schemas.HardwareInfoSpans` | `lib/response.js:13-55` | the offsets in a frame of the inputs, serial number, calibration, LNB and project fields of the hardware description, summed from the field widths |
| `Schemas.PowerLnbSpans` | `lib/response.js:65-100` | the offsets of the six fixed-gain fields |
| `Schemas.WaveformData8Spans` | `lib/response.js:112-128` | the offsets of the settings behind 320 data bytes |
| `Schemas.WaveformData12Spans` | `lib/response.js:112-128` | the offsets of the settings behind 480 data bytes, CurLNB among them at 500 |
| `Schemas.ChangeConfigSpans` | `lib/request.js:55-87` | the offsets of the fields of the change-settings packet |
| `Analyzer.HardwareAgrees` | `etc/avcom-example-code/api/aovspecan.c:383-505` | on every frame the hardware schema accepts, the fixed offsets give the same description, current settings and input flags as the field names; what these are in the terms of the analyzer is stated by `Devices.FaithfulStores` |
| `Analyzer.LnbAgrees` | `etc/avcom-example-code/api/aovspecan.c:533-546` | the six gain bytes read at 37 to 42 are the fields RF1FXDG to RF6FXDG of the LNB power schema |
| `Analyzer.LevelRoundTrip` | `etc/avcom-example-code/api/aovspecan.c:667-669` | a level survives encoding and decoding, with firmware before and since 3.0, exactly if it is a signed char |
| `Analyzer.WindowExact` | `etc/avcom-example-code/api/aovspecan.c:535-545` | the level window is [base - s, -10 - s] for the signed gain s (0 before 3.0) exactly if s is at most 128 + base |
| `Analyzer.AdmittedLevelRoundTrip` | `etc/avcom-example-code/api/aovspecan.c:661-669` | every level a window admits comes back unchanged from the wire |
| `Handles.Handle.LoadHardware` | `etc/avcom-example-code/api/aovspecan.c:383-505` | storing the hardware response gives the description, settings, limits and flags decoded from its bytes, those of `Devices.FaithfulStores`, and leaves the level windows alone |
| `Handles.Handle.LoadWindows` | `etc/avcom-example-code/api/aovspecan.c:533-546` | exactly the available inputs get the window of their gain byte; the other inputs and fields stay |
| `Handles.Handle.LoadPanel` | `etc/avcom-example-code/api/aovspecan.c:576-579` | the four fields of the front panel are those of its answer |
| `Handles.Handle.StoreSpectrum` | `etc/avcom-example-code/api/aovspecan.c:219-283` | storing a packet makes of the trace what its decoding prescribes: for a waveform what `Trace.SweepShown` says of its settings, its 320 points and its axis, for any other packet a new axis only |
| `Handles.TraceOfAnswer` | `etc/avcom-example-code/api/aovspecan.c:220-283` | what is stored depends on the packet alone exactly if its type is that of a waveform; otherwise settings and amplitudes are those stored before, on an axis of uninitialised variables |
| `Waveform.UnpackPack` | `etc/avcom-example-code/api/aovspecan.c:231-241` | packing any even number of 12-bit samples into bytes loses none |
| `Waveform.PackUnpack` | `etc/avcom-example-code/api/aovspecan.c:231-241` | every byte string of whole triples is the packing of its samples |
| `Waveform.PackedBits` | `etc/avcom-example-code/api/aovspecan.c:231-241` | three packed bytes, as one big-endian number of 24 bits, are two samples of 12 bits one behind the other |
| `Waveform.Store12` | `etc/avcom-example-code/api/aovspecan.c:231-241` | the loop that moves its counter twice in each round stores the amplitudes of all 320 samples of its 480 bytes |
| `Waveform.Store8` | `etc/avcom-example-code/api/aovspecan.c:262-267` | the 8-bit loop stores the amplitudes of its 320 bytes in their order, point k from byte 4 + k (`Trace.SweepShown`) |
| `Waveform.ToDbAgrees` | `lib/csw.js:111-119` | over the reals the JavaScript and the C amplitude are equal exactly for level bytes below 128, and 128 too before firmware 3.0 |
| `Waveform.TwelveBitRefines` | `etc/avcom-example-code/api/aovspecan.c:231-241` | a 12-bit amplitude exceeds that of its upper 8 bits by at least 0 and less than 0.2 dB, by 0 exactly for multiples of 16 |
| `Waveform.AxisShape` | `etc/avcom-example-code/api/aovspecan.c:280-283` | the axis starts half a span below the centre, which is entry 160, rises by a 320th of the span and stays in the half-open window |
| `Waveform.StoreAxis` | `etc/avcom-example-code/api/aovspecan.c:280-283` | the loop from -160 fills in the whole axis |
| `Waveform.ULongExact` | `etc/avcom-example-code/api/aovspecan.c:242-251` | the value used for the axis is the word on the wire exactly if `long` has 32 bits or the top bit is clear; else all higher bits are set too |
| `Waveform.WaveformAgrees` | `etc/avcom-example-code/api/aovspecan.c:222-251` | for 8-bit and 12-bit frames the fixed offsets are the schema fields, except that the LNB setting is the high byte of the internal extender offset |
| `Waveform.LnbExact` | `etc/avcom-example-code/api/aovspecan.c:228` | the recorded LNB setting is the reported one exactly if the extender offset lies in the block of 256 values that starts with it |
| `Waveform.LnbMisread` | `etc/avcom-example-code/api/aovspecan.c:228` | a well-formed waveform frame of either type, accepted by the schema, whose LNB byte 0x40 is taken for 0 |
| `Trace.LnbMisrecorded` | `etc/avcom-example-code/api/aovspecan.c:216-277` | a spectrum call that receives this frame succeeds and records 0, whatever its buffer and the trace held before |
| `ChangeSettings.NoUpperLimit` | `etc/avcom-example-code/api/aovspecan.c:644-645` | whatever is accepted is accepted at every higher frequency |
| `ChangeSettings.LnbBytesAgree` | `etc/avcom-example-code/api/aovspecan.c:1232-1242` | the two setters ask for the same supply exactly if it is off or the voltage is 18 or 0 |
| `ChangeSettings.Seal` | `etc/avcom-example-code/api/aovspecan.c:703-707` | the header written last makes a frame of the bytes that lie from index 3 on |
| `ChangeSettings.BuildChange` | `etc/avcom-example-code/api/aovspecan.c:685-707` | the packet filled in byte by byte is the frame of the wire values, and nothing behind it is written |
| `ChangeSettings.ChangeAccepted` | `lib/request.js:55-87` | the request schema accepts exactly the packets with STX, LEN 16, DTYPE 4 and ETX in place |
| `ChangeSettings.WireRoundTrip` | `lib/request.js:55-87` | every built packet is accepted and read back to the same wire values |
| `ChangeSettings.WireInverse` | `lib/request.js:55-87` | every accepted packet of 19 bytes with clear reserved bytes is the one built from what is read from it |
| `ChangeSettings.UnitsError` | `lib/csw.js:126-131` | the frequency that comes back is less by at least 0 and under 1/10000 MHz, exactly if it is in the 32-bit range of the wire |
| `ChangeSettings.FrequencyLost` | `etc/avcom-example-code/api/aovspecan.c:644-665` | 429496.7296 MHz is accepted wherever a lower frequency is, and sent as 0 |
| `ChangeSettings.SettingsSurvive` | `etc/avcom-example-code/api/aovspecan.c:644-707` | for every accepted request the packet is accepted by the schema; level, bandwidth, input and LNB supply come back exactly, the span within one unit, the frequency within one unit exactly if it fits the wire |
| `Acceptance.RequestCode` | `etc/avcom-example-code/api/aovspecan.c:641-663` | for a registered analyzer of a known product, in its own values: a request is accepted exactly if the frequency is not below the range of the product, the span lies in 0 to 1300 MHz, the input is announced, the bandwidth is a single one of six bits and offered, and the level lies in the window of the input; else the first condition that fails decides the code |
| `Acceptance.RequestSent` | `etc/avcom-example-code/api/aovspecan.c:665-707` | the 19 bytes that an accepted request sends, one by one: both frequencies in units of 100 Hz, the level with its sign dropped before firmware 3.0, bandwidth, input, supply |
| `Acceptance.SupplySent` | `etc/avcom-example-code/api/aovspecan.c:671-683` | the supply byte is 0x40 without a supply; else bit 2 is set, bit 3 for 18 V, bit 5 for 22 kHz; the call for the supply alone takes any voltage but 0 for 18 V |
| `Acceptance.ChangeRegistered` | `etc/avcom-example-code/api/aovspecan.c:625-761` | the whole way: for a registered analyzer of a known product and a request that its description grants, the packet and the request for a spectrum are sent, and with one frame as the answer the call returns 0, records the input and leaves nothing unread |
| `RegistryProofs.RunKeeps` | `etc/avcom-example-code/api/aovspecan.c:35-117` | over every run of calls: listed handles are distinct and own their open sockets; a socket leaks exactly if some step loses one; endpoints stay distinct unless some step lists one twice |
| `RegistryProofs.RunLost` | `etc/avcom-example-code/api/aovspecan.c:35-117` | a lost socket never finds an owner again: what is lost after a run is exactly what was lost before and what its steps lose |
| `RegistryProofs.CleanRun` | `etc/avcom-example-code/api/aovspecan.c:35-117` | no step loses a socket or lists an endpoint twice if everything can be closed and every port number fits 16 bits |
| `RegistryProofs.EndpointsExact` | `etc/avcom-example-code/api/aovspecan.c:317-349` | over a run that takes no handle off the list, endpoints stay distinct exactly if no step lists one twice |
| `RegistryProofs.StartsSound` | `etc/avcom-example-code/api/aovspecan.c:35-36` | the uninitialised library, with which every run starts, meets all three invariants |
| `Lifecycle.InitializeExact` | `etc/avcom-example-code/api/aovspecan.c:764-785` | initialisation returns 0 exactly if the library is not up and its refusal exactly if it is; it is up afterwards in either case, a success with no handle and the same open sockets, a refusal unchanged |
| `Lifecycle.DeinitializeExact` | `etc/avcom-example-code/api/aovspecan.c:788-807` | deinitialisation returns 0 exactly if the library is up, and leaves it down with no handle; a refusal changes nothing |
| `Lifecycle.UpExactly` | `etc/avcom-example-code/api/aovspecan.c:764-807` | over every run the library is up at the end exactly if the last call that initialises or deinitialises initialises, and without such a call as it was |
| `Lifecycle.StepListed` | `etc/avcom-example-code/api/aovspecan.c:293-621` | after one call of any kind a handle is listed exactly if the call is a registration that lists it, or it was listed and the call neither unregisters it nor deinitialises |
| `Lifecycle.ListedExactly` | `etc/avcom-example-code/api/aovspecan.c:293-621` | over every run a handle is listed at the end exactly if a registration of the run lists it, or it was listed before, and no later call unregisters it or deinitialises |
| `Lifecycle.RegisterCode` | `etc/avcom-example-code/api/aovspecan.c:293-591` | the code of a registration: the first of not initialised, no memory, no address, endpoint listed, no socket, no option, no connection, failed dialogue and failed closing decides |
| `Lifecycle.ConnectExact` | `etc/avcom-example-code/api/aovspecan.c:53-93` | the code of connecting by its conditions; an opened socket becomes that of the handle and of no other, unless the connection is refused and the socket closed again |
| `Lifecycle.DisconnectExact` | `etc/avcom-example-code/api/aovspecan.c:96-117` | disconnecting returns 0 exactly if there is a connection that closes, and then only that handle loses only that socket; otherwise nothing changes |
| `Lifecycle.ConnectDisconnect` | `etc/avcom-example-code/api/aovspecan.c:53-117` | a connection that is closed again leaves the registry as it was |
| `Lifecycle.UnregisterExact` | `etc/avcom-example-code/api/aovspecan.c:593-621` | unregistering a listed handle returns 0 and takes exactly its entry off the list, whatever becomes of its connection |
| `Lifecycle.StrangerRefused` | `etc/avcom-example-code/api/aovspecan.c:39-50` | connecting, disconnecting and unregistering are refused for a handle that is not listed and change nothing |
| `Lifecycle.FirstHandle` | `etc/avcom-example-code/api/aovspecan.c:764-785` | from the library as it is loaded, initialisation and a registration with everything granted end with the new handle listed and connected |
| `Lifecycle.LastHandle` | `etc/avcom-example-code/api/aovspecan.c:788-807` | disconnecting it, connecting it again and deinitialising lead back to the library as it was loaded, with nothing open |
| `RegistryProofs.StepKeeps` | `etc/avcom-example-code/api/aovspecan.c:593-621` | one call of any kind and any outcomes of its system calls keeps handles distinct and sockets owned; it leaks exactly if it loses a socket, and repeats an endpoint exactly if it is a registration of a listed one by a port outside 16 bits |
| `RegistryProofs.StepLost` | `etc/avcom-example-code/api/aovspecan.c:96-117` | the sockets without an owner after a step are those before it and those the step loses, by its inputs |
| `RegistryProofs.RegisterLost` | `etc/avcom-example-code/api/aovspecan.c:351-591` | a registration loses exactly the socket it opened, if it fails behind `socket` and neither closing on the way nor the one at the end succeeds |
| `RegistryProofs.RegisterSucceeds` | `etc/avcom-example-code/api/aovspecan.c:293-591` | a registration succeeds exactly if memory, lookup, connection and dialogue do, the endpoint is new, and the socket closes unless it is to stay open |
| `RegistryProofs.FailedRegistrationLeaks` | `etc/avcom-example-code/api/aovspecan.c:371-381` | a first registration whose dialogue fails and whose socket does not close: no handle is listed and the socket stays open |
| `RegistryProofs.RegisterAtomic` | `etc/avcom-example-code/api/aovspecan.c:317-374` | a failed registration leaves the list as it was, exactly unless it is a duplicate with a port outside 16 bits or only the closing at its end has failed; given that sockets close, the open sockets stay as they were too |
| `RegistryProofs.ConnectedOnFailure` | `etc/avcom-example-code/api/aovspecan.c:583-585` | a registration that fails in nothing but the closing at its end leaves the new handle listed and connected |
| `RegistryProofs.RegisterAppends` | `etc/avcom-example-code/api/aovspecan.c:508-591` | a successful registration appends one handle, connected exactly if that was asked for |
| `RegistryProofs.RegisterInv` | `etc/avcom-example-code/api/aovspecan.c:317-374` | registration keeps the invariant, and endpoints distinct exactly if it is not a duplicate with a port outside 16 bits |
| `RegistryProofs.DuplicateUndone` | `etc/avcom-example-code/api/aovspecan.c:341-349` | a duplicate is taken off the list again exactly if its port number fits 16 bits |
| `RegistryProofs.OversizedPortListsTwice` | `etc/avcom-example-code/api/aovspecan.c:343-348` | port 92018 lists the endpoint of port 26482 a second time |
| `RegistryProofs.UnregisterLeaks` | `etc/avcom-example-code/api/aovspecan.c:593-621` | unregistering leaks a socket exactly if the connection of a listed handle fails to close |
| `RegistryProofs.UnregisterPushed` | `etc/avcom-example-code/api/aovspecan.c:593-621` | unregistering the handle just added restores the list; only its own socket can be left over |
| `RegistryProofs.ConnectPushed` | `etc/avcom-example-code/api/aovspecan.c:53-93` | connecting a new handle fails without a trace or leaves exactly its own socket open; it succeeds exactly if all three system calls do |
| `RegistryProofs.DeinitializeCloses` | `etc/avcom-example-code/api/aovspecan.c:788-807` | deinitialisation succeeds, empties the list, and leaves open exactly the sockets that cannot be closed |
| `RegistryProofs.GetHandleUnique` | `etc/avcom-example-code/api/aovspecan.c:809-840` | with distinct endpoints the lookup finds exactly the handle registered for the port and the comparison key of the host, and reports none exactly if none is listed |
| `Lifecycle.GetHandleExact` | `etc/avcom-example-code/api/aovspecan.c:809-840` | with any list: the lookup finds a handle exactly if the address is found and an entry has it and the port number as it was given, and it is the first such entry |
| `Addresses.SaDataExact` | `etc/avcom-example-code/api/aovspecan.c:830-836` | comparing 14 bytes of `sa_data` tells endpoints apart exactly if their ports differ or their hosts are not confused: IPv4 hosts never are, IPv6 hosts by flow and first half of the address |
| `Addresses.LookupExact` | `etc/avcom-example-code/api/aovspecan.c:830-836` | looking up a host finds the handle registered for another exactly if the two are confused |
| `Addresses.NeighbourTaken` | `etc/avcom-example-code/api/aovspecan.c:341-349` | of two hosts in one IPv6 network the second is refused as a duplicate, and its lookup finds the first |
| `Registry.Library.constructor` | `etc/avcom-example-code/api/aovspecan.c:35-36` | the library starts uninitialised, with no handle and no socket |
| `Registry.Library.CheckForHandle` | `etc/avcom-example-code/api/aovspecan.c:39-50` | the linear search succeeds exactly for listed handles |
| `Registry.Library.Connect` | `etc/avcom-example-code/api/aovspecan.c:53-93` | connecting moves the registry as the state machine does, closing again after a failed `connect`; a success has read one frame of the new connection, and only that |
| `Registry.Library.Disconnect` | `etc/avcom-example-code/api/aovspecan.c:96-117` | disconnecting moves the registry as the state machine does; a socket that does not close stays |
| `Registry.Library.Shift` | `etc/avcom-example-code/api/aovspecan.c:609-616` | moving later entries down by one removes exactly one entry and keeps the order |
| `Registry.Library.Unregister` | `etc/avcom-example-code/api/aovspecan.c:593-621` | unregistering moves the registry as the state machine does |
| `Registry.Library.Initialize` | `etc/avcom-example-code/api/aovspecan.c:764-785` | initialisation moves the registry as the state machine does: it starts an empty list, or is refused (`Lifecycle.InitializeExact`) |
| `Registry.Library.Deinitialize` | `etc/avcom-example-code/api/aovspecan.c:788-807` | the loop over the last handle ends with what the state machine prescribes |
| `Registry.Library.GetHandle` | `etc/avcom-example-code/api/aovspecan.c:809-840` | the lookup loop returns the first entry that matches in address and port |
| `Registry.Library.Register` | `etc/avcom-example-code/api/aovspecan.c:293-591` | a registration moves the registry as the state machine does, for all outcomes and all streams; a success leaves the handle filled from what was read from the connection after the greeting, and has sent the requests for the descriptions |
| `Registry.Library.RegisterListed` | `etc/avcom-example-code/api/aovspecan.c:335-374` | the duplicate search and its missing braces, on the list with the new handle at its end |
| `Registry.Library.Describe` | `etc/avcom-example-code/api/aovspecan.c:357-580` | two or three exchanges on the connection, stopped by the first failure: the requests sent in order, the result code, the unread stream, and the fields of the handle that each answer fills |
| `Registry.RequestedBytes` | `etc/avcom-example-code/api/aovspecan.c:357-560` | the packets a successful registration has sent, byte by byte: for the hardware, for the LNB power, and for the front panel if there is one |
| `SessionSpec.TriggerNeverEnds` | `etc/avcom-example-code/api/aovspecan.c:1929-1935` | on every stream: the loop of a trigger has no outcome exactly if the peer closes and no packet received, the leftover at the end included, has a status byte other than 3, nor the buffer one to begin with if the first packet is too short |
| `SessionSpec.PacketsDecoded` | `etc/avcom-example-code/api/aovspecan.c:1929-1935` | the packets meant there are the frames that reassembly finds in the stream, then what no whole frame covers |
| `SessionSpec.TriggerSpins` | `etc/avcom-example-code/api/aovspecan.c:1929-1935` | a loop that ends does so within one round more than there are bytes, with the outcome of the model; where the model has none, it is still running after any number of rounds |
| `SessionSpec.TriggerHangs` | `etc/avcom-example-code/api/aovspecan.c:1929-1935` | one acknowledgement with status 3 and a closed connection: no outcome |
| `SessionSpec.ShortAnswerIgnored` | `etc/avcom-example-code/api/aovspecan.c:1931-1934` | an answer too short for a status byte does not end the loop once a 3 has been read |
| `LockStep.RunInStep` | `etc/avcom-example-code/api/aovspecan.c:708-724` | over every run of calls, those a registration consists of included, against an analyzer that keeps the protocol, no byte is unread before or after any call, and each call looks at the answer to its own request |
| `LockStep.TurnInStep` | `etc/avcom-example-code/api/aovspecan.c:214-217` | one call in step with the analyzer returns, looks at the last frame of its answer and leaves nothing unread |
| `LockStep.TriggerReads` | `etc/avcom-example-code/api/aovspecan.c:1929-1935` | from any queue of frames that holds enough, the loop reads up to the first frame after which the status byte, a leftover one included, is not 3, and no further |
| `LockStep.AnswerNeeded` | `etc/avcom-example-code/api/aovspecan.c:1929-1935` | an answer of any number of status-3 frames and one other is read as a whole, whatever the buffer held |
| `LockStep.Queue` | `etc/avcom-example-code/api/aovspecan.c:892-893` | for any calls, triggers and rejected ones included, and any analyzer: as long as each call finds the frames it needs, it takes them from the front of those left over and its own answer, and leaves the rest for the next call |
| `LockStep.BacklogIsLatest` | `etc/avcom-example-code/api/aovspecan.c:892-893` | no frame is skipped or read twice: what is left over is the end of all that was sent |
| `LockStep.OwnAnswer` | `etc/avcom-example-code/api/aovspecan.c:892-893` | a call that needs more frames than were left over looks at a frame of its own answer, any other one at a leftover frame while its own answer stays unread; a call that reads once gets its own answer exactly if nothing was unread before it |
| `LockStep.AckCheckExact` | `etc/avcom-example-code/api/aovspecan.c:903-916` | an acknowledgement is refused exactly if none of its three bytes matches, so as intended exactly if all three or none match; of any other the status decides the code |
| `LockStep.StrangerAccepted` | `etc/avcom-example-code/api/aovspecan.c:903-916` | a setter that receives a packet which is no acknowledgement, but carries the command byte and no status, succeeds |
| `LockStep.SetterInStep` | `etc/avcom-example-code/api/aovspecan.c:903-916` | in step with an analyzer that acknowledges each command by its bytes, a setter returns 0 if the status is clear and else the two bytes behind it, taken from the initial buffer where the packet is too short |
| `LockStep.SetterRefused` | `etc/avcom-example-code/api/aovspecan.c:903-904` | in step, a setter whose answer shares none of the three bytes returns the refusal |
| `LockStep.TriggerInStep` | `etc/avcom-example-code/api/aovspecan.c:1929-1952` | in step with an analyzer whose last packet acknowledges the trigger, the call returns 0 if its status is clear and else the error code behind it |
| `Session.Link.SendData` | `etc/avcom-example-code/api/aovspecan.c:121-133` | a send hands over the part of the packet that is taken, and succeeds exactly if it is taken whole |
| `Session.PacketFramed` | `etc/avcom-example-code/api/aovspecan.c:357-364` | every packet built is a well-formed frame around its bytes, and what `send` takes of it is its front |
| `Session.Link.Ask` | `etc/avcom-example-code/api/aovspecan.c:357-381` | a description exchange sends one request, reads one packet into the buffer of the call and checks its type |
| `Session.Link.SetOne` | `etc/avcom-example-code/api/aovspecan.c:865-916` | a setter sends one packet, reads one answer and returns the code its model gives |
| `Session.Link.AwaitStatus` | `etc/avcom-example-code/api/aovspecan.c:1929-1935` | so many rounds of the loop do what the model says of them; looked at for more rounds than there are bytes, the loop has ended exactly if the model has an outcome |
| `Session.Link.Trigger` | `etc/avcom-example-code/api/aovspecan.c:1900-1953` | a trigger sends one packet and, if its loop ends, returns what its model gives; it refuses its flags without sending |
| `Session.Link.GetSpectrumData` | `etc/avcom-example-code/api/aovspecan.c:190-287` | one request and one answer; a success makes of the trace what the answer prescribes, whatever its type, and a failure leaves it alone; what that is for the frame of a sweep is stated by `Trace.ReadSpectrum` |
| `Session.Link.SetAllSettings` | `etc/avcom-example-code/api/aovspecan.c:625-761` | a rejected request sends nothing; an accepted one sends the change packet and the waveform request, reads one answer and records the input; which are accepted is stated by `Acceptance.RequestCode` |
| `Trace.SpectrumOfFrame` | `etc/avcom-example-code/api/aovspecan.c:216-277` | for a waveform frame anywhere in a stream, whatever surrounds it and whatever the buffer held, the data, settings and axis words found at the fixed offsets are the named fields, the LNB setting excepted, and the rest of the stream stays unread |
| `Trace.SamplesArrive` | `etc/avcom-example-code/api/aovspecan.c:216-241` | each of the 320 samples packed into a 12-bit frame anywhere in a stream is the sample of its point of the trace |
| `Trace.SweepShown` | `etc/avcom-example-code/api/aovspecan.c:216-283` | for 8-bit and 12-bit frames anywhere in a stream: point k of the trace is sample k of the sweep in dB at the level of the sweep, settings and axis are those of the sweep in explicit values, the LNB setting being the high byte of the extender offset |
| `Trace.ReadSpectrum` | `etc/avcom-example-code/api/aovspecan.c:190-287` | the whole way: on a connection that delivers the 8-bit or 12-bit frame of a sweep the call succeeds, leaves what follows unread, and shows the sweep: every point, the settings and the axis |
| `Descriptions.EverySweep` | `lib/response.js:112-128` | every sweep has such a frame, in 12 bits, and in 8 bits if its points are multiples of a fifth of a dB |
| `Trace.SpectrumMeansFrame` | `etc/avcom-example-code/api/aovspecan.c:216-219` | a spectrum call that succeeds has received a whole frame exactly if one was there or the stream ended in an error |
| `Trace.SpectrumWithoutFrame` | `etc/avcom-example-code/api/aovspecan.c:216-219` | on a connection closed before a whole frame the call succeeds, and every byte not received is that of the uninitialised buffer |
| `Trace.TraceOfNothing` | `etc/avcom-example-code/api/aovspecan.c:216-241` | on an empty closed connection packet type and amplitudes are those of the uninitialised buffer |
| `Describing.AskedIsTurn` | `etc/avcom-example-code/api/aovspecan.c:365-381` | an exchange of a registration whose request is taken is one turn of a run of calls |
| `Describing.IntroductionInStep` | `etc/avcom-example-code/api/aovspecan.c:357-580` | against an analyzer that answers each request with one frame of its type, every exchange of a registration finds its own frame at the front of its buffer and nothing stays unread, with a front panel and without |
| `Describing.IntroductionCode` | `etc/avcom-example-code/api/aovspecan.c:357-580` | whatever frames answer and however much of each packet is taken: the first packet not taken whole or answered by another type decides the code of the dialogue; the panel is refused only if both its bytes are wrong |
| `Devices.FaithfulStores` | `etc/avcom-example-code/api/aovspecan.c:383-579` | what a handle stores, in the values the analyzer put into its fields: product, firmware, bandwidths, inputs with range, power and level window, serial number, calibration date, range of a known product, front panel, and the current settings, the level with its sign restored before firmware 3.0 exactly unless it is -128 |
| `Devices.LeftAlone` | `etc/avcom-example-code/api/aovspecan.c:404-430` | the range of an unknown product and the windows of inputs that are not available stay as they were |
| `Devices.RegistrationOfFrames` | `etc/avcom-example-code/api/aovspecan.c:357-580` | from the frames on the stream to the handle: after greeting, hardware, LNB and panel frames the dialogue succeeds with nothing unread, and a handle filled from it holds what the frames say by name and stores the values of the analyzer they describe |
| `Devices.RegisterAnalyzer` | `etc/avcom-example-code/api/aovspecan.c:293-591` | the whole way: registering an analyzer that describes itself in frames moves the registry as if the dialogue could not fail; a success has sent the two or three requests, leaves nothing unread, and the new handle stores the values of the analyzer |
| `Descriptions.EveryDevice` | `lib/response.js:13-55` | every analyzer can describe itself so: there are frames that carry its values |
| `Descriptions.SampleTells` | `lib/response.js:57-62` | the sample description kept in the repository is that of a 2500 with firmware 2.16 at 1200 MHz, 540 MHz of span and -45 dB, calibrated on day 17 of month 3 in 2010 |
| `Boot.ChecksumBalances` | `etc/avcom-example-code/customer-example/sbs_bl.c:247-250` | a checksum byte balances the bytes before it modulo 256 exactly if it is the computed one |
| `Boot.AlterationNoticed` | `etc/avcom-example-code/customer-example/sbs_bl.c:247-250` | every alteration of one byte is noticed |
| `Boot.DoubleAlteration` | `etc/avcom-example-code/customer-example/sbs_bl.c:247-250` | two alterations go unnoticed exactly if they cancel modulo 256; exchanging two bytes always does |
| `Boot.SumFrom3` | `etc/avcom-example-code/customer-example/sbs_bl.c:247-248` | the subtracting loop computes the checksum of the bytes from index 3 on |
| `Boot.BuildDescription` | `etc/avcom-example-code/customer-example/sbs_bl.c:228-255` | for every description and serial number the packet is a well-formed frame whose inner bytes sum to 0 modulo 256, with product, pcb, project, chassis and serial number at their places |
| `Boot.BuildKey` | `etc/avcom-example-code/customer-example/sbs_bl.c:181-193` | the hard-coded key packet is a well-formed frame that obeys the same rule |
| `Decimals.PlainDenotes` | `lib/csw.js:233-237` | the digits printed for a number without an exponent denote the number |
| `Decimals.MantissaDenotes` | `lib/csw.js:233-237` | the digits in front of an exponent denote the number with its point behind the first digit |
| `Decimals.NatOfAppend` | `lib/csw.js:169` | digits count by position: those in front of n others by 10^n |
| `Decimals.NatOfOne` | `lib/csw.js:169` | one digit counts what it shows |
| `Decimals.PrintsPlain` | `lib/csw.js:231-238` | whole numbers and fractions are printed with a sign, digits and a point |
| `Decimals.PrintsLarge` | `lib/csw.js:231-238` | 2 times 10^20 is printed without an exponent, 2 times 10^21 with one |
| `Decimals.PrintsSmall` | `lib/csw.js:231-238` | 0.000002 is printed without an exponent, 2.5e-7 with one |
| `Hertz.ReadPlain` | `lib/csw.js:157-185` | a number printed without an exponent is read back with its unit; all other texts are the subject of `HertzTexts.ReadsText` |
| `Hertz.ReadExponent` | `lib/csw.js:157-185` | of a number printed with an exponent only the mantissa is read, and no unit |
| `HertzTexts.ReadsText` | `lib/csw.js:157-187` | for any text free of digits in front, any sign, digits, fraction, white space of any length and kind, with a letter G, M or K of either case or none, and any text behind: what is read is the number the digits denote and the power of ten of the letter |
| `HertzTexts.RefusesNoDigits` | `lib/csw.js:157-168` | a text without a digit is refused |
| `HertzTexts.RefusesZero` | `lib/csw.js:169-177` | a text of that form whose number is 0 is refused |
| `HertzTexts.RefusesGroups` | `lib/csw.js:159-177` | a number with two fractions is refused |
| `HertzTexts.NormalizesText` | `lib/csw.js:136-239` | what such a text is turned into, with every option: its number, moved by the powers of ten of its own or the assumed unit and of the unit asked for, as a number, as a text with one blank and that unit, or as a bare text; a unit option longer than its letter throws |
| `HertzTexts.Fifteen` | `lib/csw.js:136-239` | 1500MHz becomes 1500 MHz |
| `Hertz.ValuePreserved` | `lib/csw.js:187-226` | for every text and options, the output number times its unit is the input number times its unit |
| `Hertz.MeaningPreserved` | `lib/csw.js:136-239` | for every accepted text: the output stands for the same frequency exactly if the point of the input, moved by the factor of the units, lies in (-6, 21] or one place above the factor between the assumed and the printed unit |
| `Hertz.ReadableExponents` | `lib/csw.js:136-239` | that happens for numbers of 1 to 10 Hz printed in GHz, with no unit assumed, and no others |
| `Hertz.Idempotent` | `lib/csw.js:136-239` | with the unit printed, applying it again with the same options changes nothing exactly if the point of the input, moved by the factor of the units, lies in (-6, 21], or for 1 to 10 Hz printed in GHz on request |
| `Hertz.ExponentMisread` | `lib/csw.js:136-239` | 100 Hz asked for in GHz becomes a text that stands for 1 Hz and changes when it is normalised again |
| `Hex.ToHexDenotes` | `lib/csw.js:32-43` | the hex digits of a number denote it, and are no more than its size needs |
| `Hex.HexExact` | `lib/csw.js:32-43` | the text has exactly the asked number of hex digits and denotes the number exactly if 0 <= number < 16^len |
| `Hex.Samples` | `lib/csw.js:32-43` | 255 in four digits is 00ff, 10 without a length 0a, -5 in four 00-5, and 256 in two throws |
| `Hex.BufferValue` | `lib/request.js:121` | the bytes of a hex text denote the number that the text denotes |
| `Hex.BufferAppend` | `lib/request.js:121` | the bytes of two texts in a row are those of the one followed by those of the other |
| `Bandwidths.RbwRoundTrip` | `lib/csw.js:58-90` | every named bandwidth is sent as its own bit and read back by name |
| `Bandwidths.BitNames` | `lib/csw.js:58-90` | the byte of each bandwidth by name: 3 MHz is 0x80, 1 MHz 0x40, 300 KHz 0x20, 100 KHz 0x10, 10 KHz 0x08, 3 KHz 0x04, 200 KHz 0x02 |
| `Bandwidths.LowestBit` | `lib/csw.js:82-90` | of a byte with several bits the lowest names the bandwidth; 0 has no name |
| `Bandwidths.RbwSent` | `lib/csw.js:62-80` | any text is sent as the bit of a name below 3 MHz exactly if number and unit are those of the name; anything else that can be read is sent as 3 MHz |
| `Bandwidths.RbwTextSent` | `lib/csw.js:62-80` | character by character: a text with a number is sent as the bit of a name below 3 MHz exactly if its digits denote the number of the name and its letter is the unit, K if there is none |
| `Requests.MakeChangeConfig` | `lib/request.js:88-124` | growing the text piece by piece computes the result, defaults and failures included, for numbers of any kind and texts |
| `Requests.BufferStops` | `lib/request.js:121` | the bytes end where a text stops being hex digits |
| `Requests.BadText` | `lib/csw.js:32-43` | a number that is not whole or does not fit throws, or its text has a sign or a point within the asked length, whatever digits follow |
| `Requests.JoinStops` | `lib/request.js:98-121` | if one of the numbers is not whole or does not fit its field, the builder throws or the packet is cut short |
| `Requests.MadeExactly` | `lib/request.js:88-124` | the builder yields a packet that the request schema accepts exactly if all values are readable, whole and fit, however fractions are printed, and then it is the frame of those values with LNB byte 0 |
| `Requests.ThrowsExactly` | `lib/csw.js:32-43` | the builder throws exactly if a value is no number, positive infinity or too large for its field, or the bandwidth cannot be read |
| `Requests.TextSent` | `lib/request.js:102-113` | a frequency given as a text, of any form that is read, is sent in units of 100 Hz, in MHz unless it names a unit |
| `Requests.NegativeFrequency` | `lib/request.js:98-121` | a text with a negative frequency makes no packet: the builder throws or cuts it short, whatever the other arguments |
| `Requests.DefaultPacket` | `lib/request.js:88-124` | the packet of a call without frequencies, byte by byte, with the level and input that are given, or 50 and 10; 0 can be given as a text only |
| `Requests.NegativeLevelCuts` | `lib/request.js:114` | level -5: nothing is thrown and the packet is cut short |
| `Requests.HalfUnitCuts` | `lib/request.js:102-107` | 1250.00005 MHz: nothing is thrown and the packet is cut short |
| `Requests.TwoBuilders` | `lib/request.js:88-124` | for the same wire values the JavaScript and the C packet agree in every byte but the LNB byte exactly if no number is 0; the LNB bytes always differ |
| `Requests.ZeroSpanWidened` | `lib/request.js:90` | a span of 0 becomes 600 MHz in one packet and stays 0 in the other |

## Left out

- Sockets, `getaddrinfo`, `WSAStartup`, `Sleep` and timeouts: their outcomes are arguments.
- A failing `realloc`, and the version fields of a handle.
- Reading outside a buffer: the frames must fit the 1024 bytes, and an analyzer must claim at most six inputs.
- Registry.Library.Register: the connection that a successful `connect` opens is an argument; which descriptor stands for which connection later on is not modelled.
- Addresses.SaDataExact: an address family other than IPv4 and IPv6, and all addresses of a host but the first.
- Registry.Library: `plist` is a sequence that the methods reassign; its reallocation and the freeing of handles are not modelled.
- Session.Link: the lookup of the handle in front of each call is the subject of `Registry.Library.CheckForHandle`; the calls here start behind it.
- Session.Link.SetOne: stands for the setters with one command and one acknowledgement; their argument checks are `Rejected` calls of the session model.
- Session.Link.Trigger: looks at so many rounds of its loop, for any number; a method that does not end has no contract of its own.
- ChangeSettings.UnitsError: a frequency outside the range of `unsigned int` is converted modulo 2^32, as common machines do; the C standard leaves it undefined.
- Floating-point rounding: amplitudes, the axis and frequencies are reals, the numbers of `normalizeHz` exact decimals.
- Hertz.MeaningPreserved: upper-casing is that of ASCII; no other character becomes a digit or a unit letter.
- Requests.MadeExactly: the hex digits printed behind the point of a fraction are an argument; a level or input is a number or a text, represented by what `Number` makes of it.
- Splitter.TextRoundTrip: a text is its bytes, without UTF-8 decoding; a text message that announces LEN below 2 is taken as empty.
- `makeHardwareInfo`, `makeLNBPower`, `makeWaveformData`: constant packets; the first two are those of `Registry.RequestedBytes`.
- `parserGlob`, which reads LEN a second time as a hex text, and `parserUnknownPacket`.
- The inside of `binary-parser`: a schema is its list of fields.
- The serial number of a boot description is copied as a whole; the delay loops and the answers there are ignored by the code too.
- Markers, SNR and CNR, whose floats depend on the memory layout of the host.
- `lib/client.js`, `lib/handler.js`, `lib/simulator.js`, and the menu, stress and example programs.
