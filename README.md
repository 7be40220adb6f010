# cloudbbq core, modelled in Dafny

A model of the client-side protocol layer for iBBQ Bluetooth LE barbecue thermometers
(the `cloudbbq` Rust crate), and of its Bluetooth UUID helpers.

- **Temperature fixed point** (`temperature.dfy`): the wire form is a signed 16-bit little-endian
  count of tenths of a degree Celsius. Temperatures are whole tenths. `EncodeTemperature` refuses
  values outside the 16-bit range, and `DecodeTemperature` is total. The two are proved to be
  inverse bijections between the range and all two-byte strings.
- **Notification parsers** (`notifications.dfy`): `ParseRealTime` cuts a payload into two-byte
  probe slots. The absent-probe value -1.0 (wire F6 FF) becomes `None`. `ParseSettingResult`
  reads the fixed six-byte frame, and its three outcomes include the panic of the source's
  `assert!`s. Each parser is paired with the frame the device would send, and round trips are
  proved in both directions.
- **Command buffers** (`commands.dfy`): the fixed six-byte commands and the fifteen-byte
  credential. A reference reading of command frames (`DecodeCommand`) shows that every buffer
  the session writes decodes to exactly the command it was built from, and back.
- **Session** (`device.dfy`): `BBQDevice` is a class holding the Bluetooth session and the five
  characteristic ids of the thermometer's service. The session is a `BluetoothSession` object
  that records every characteristic write in order, plus the set of characteristics whose
  notifications were started. Each command method appends exactly one write to the right
  characteristic; `SetTargetRange` appends none when a bound does not encode. The two
  notification streams are filters over a finite sequence of Bluetooth events. The
  setting-result stream stops at the first payload that makes the parser panic.
- **UUIDs** (`uuid.dfy`, `uuid_text.dfy`): 16- and 32-bit UUIDs are expanded against the
  Bluetooth Base UUID (Bluetooth Core Specification Vol 3, Part B, section 2.5.1). The
  8-4-4-4-12 hexadecimal text form (ITU-T Rec. X.667 | ISO/IEC 9834-8, section 6.4) is formatted
  and parsed. Formatting then parsing gives back every UUID. Every canonical upper-case string
  parses to a UUID that formats back to that same string.
- `vectors.dfy` restates the unit-test vectors of `src/lib.rs` and the parse-failure test of
  `src/uuid.rs` on the model.

Behaviour of the code worth noting:

- An empty real-time payload parses to an empty list of probes, not to "invalid".
- A setting-result frame whose fixed bytes are wrong panics rather than being discarded.
- Nothing stops a caller from sending commands before `Authenticate`.

## Model

| member | source | states |
|---|---|---|
| Temperature.EncodeTemperature | src/lib.rs:330-336 | fails, carrying the value, exactly when it is below -3276.8 or above 3276.7 degrees; otherwise two bytes holding the 16-bit two's complement of the tenths, low byte first |
| Temperature.DecodeTemperature | src/lib.rs:338-340 | every two bytes decode to a temperature in the 16-bit range whose two's complement is those bytes read little-endian |
| Temperature.DecodeEncode | src/lib.rs:330-340 | every encodable temperature decodes back to itself |
| Temperature.EncodeDecode | src/lib.rs:330-340 | every pair of wire bytes re-encodes to itself, so decoding is onto the encodable range |
| Temperature.SentinelBytes | src/lib.rs:39-41 | the "no target" bound -300.0 is the bytes 48 F4; the absent-probe value -1.0 is F6 FF |
| Temperature.EncodingBoundary | src/lib.rs:42-43 | 3276.7 and -3276.8 encode; 3276.8 and -3276.9 fail |
| Notifications.ProbeSlot | src/lib.rs:274-281 | a slot is None exactly for the bytes F6 FF; otherwise it holds a temperature other than -1.0 that encodes to the slot's bytes |
| Notifications.ParseRealTime | src/lib.rs:267-270 | no result exactly when the payload length is odd |
| Notifications.ProbeSlots | src/lib.rs:272-282 | an even payload gives length/2 slots, slot i being the probe slot read from bytes 2i and 2i+1 |
| Notifications.ParseRealTimeSlots | src/lib.rs:267-284 | an even payload parses to length/2 slots, slot i being None for -10 tenths and the signed LE value of bytes 2i, 2i+1 otherwise |
| Notifications.ParseEncodeRealTime | src/lib.rs:267-284 | any list of reportable probe readings, sent as the device sends them, parses back to that list |
| Notifications.EncodeParseRealTime | src/lib.rs:267-284 | every even payload is exactly the frame of the readings it parses to |
| Notifications.ParseSettingResult | src/lib.rs:303-327 | no result exactly for a length other than 6 or an unknown first byte; a panic exactly when an acknowledgement's bytes 2-5 are not zero or a silence frame's bytes 1-5 are not FF 00 00 00 00 |
| Notifications.ParseEncodeSettingResult | src/lib.rs:307-321 | every acknowledgement, battery level and silence notification survives being framed and parsed |
| Notifications.EncodeParseSettingResult | src/lib.rs:307-321 | a frame that parses is the frame of its result, except byte 5 of a battery level, which is ignored |
| Notifications.KnownTagNeverNone | src/lib.rs:307-321 | a six-byte frame with tag FF, 24 or 04 never gives "no result": it parses or panics |
| Commands.SetUnitCommand | src/lib.rs:135-139 | six bytes with opcode 02, read back by the reference decoder as the same unit |
| Commands.RealTimeDataCommand | src/lib.rs:172-173 | six bytes with opcode 0B, read back as the same on/off switch |
| Commands.BatteryLevelRequest | src/lib.rs:182-189 | six bytes with opcode 08, read back as the battery-level request |
| Commands.SetTargetRangeCommand | src/lib.rs:147-157 | fails on the lower bound first, then the upper; otherwise opcode 01, the probe unchecked, then both bounds as their wire temperatures |
| Commands.SetTargetTempCommand | src/lib.rs:166-168 | fails exactly when the target does not encode; otherwise 01, probe, 48 F4 (-300.0), then the target |
| Commands.DecodeEncodeCommand | src/lib.rs:134-193 | every command buffer the session writes is read back as the command it was built from |
| Commands.EncodeDecodeCommand | src/lib.rs:134-193 | every buffer in the command format is the session's buffer for the command it reads as |
| Commands.EncodeCommandInjective | src/lib.rs:134-193 | distinct commands are written as distinct buffers |
| Device.IsCompatible | src/lib.rs:80-82 | a device is compatible exactly when its name is "BBQ" or "iBBQ" |
| Device.ValueFrom | src/lib.rs:208-212 | an event yields a payload exactly when it is a value notification from the given characteristic |
| Device.RealTimeStream | src/lib.rs:207-218 | the real-time stream has at most one item per event |
| Device.RealTimeStreamAppend | src/lib.rs:207-218 | the stream of a concatenation of events is the concatenation of the streams |
| Device.RealTimeStreamIgnores | src/lib.rs:207-218 | events that are not value notifications from the characteristic leave the stream unchanged |
| Device.RealTimeStreamSound | src/lib.rs:207-218 | every item is the parse of some value notification from the characteristic |
| Device.RealTimeStreamComplete | src/lib.rs:207-218 | every value notification from the characteristic that parses appears in the stream |
| Device.SettingResultStream | src/lib.rs:234-245 | the setting-result stream has at most one item per event |
| Device.SettingResultStreamAppend | src/lib.rs:234-245 | the stream of a concatenation is the concatenation of the streams, and nothing follows a panic |
| Device.SettingResultStreamPanics | src/lib.rs:234-245 | the stream panics exactly when a value notification from the characteristic fails the parser's assertions |
| Device.SettingResultStreamSound | src/lib.rs:234-245 | every delivered result is the parse of some value notification from the characteristic |
| Device.SettingResultStreamComplete | src/lib.rs:234-245 | a value notification from the characteristic that parses, with no panic before it, has its result in the stream |
| Device.BBQDevice.constructor | src/lib.rs:114-121 | the device holds the session and the five characteristic ids it is given |
| Device.BBQDevice.Authenticate | src/lib.rs:126-130 | exactly one write is appended: the fifteen-byte credential, to the account-and-verify characteristic |
| Device.BBQDevice.SetTemperatureUnit | src/lib.rs:134-143 | exactly one write is appended: 02 then 00 for Celsius or 01 for Fahrenheit, zero-padded, to setting data |
| Device.BBQDevice.SetTargetRange | src/lib.rs:147-162 | succeeds exactly when both bounds encode, appending one target command to setting data; otherwise it appends nothing and reports the first bound that failed |
| Device.BBQDevice.SetTargetTemp | src/lib.rs:166-168 | as SetTargetRange with the lower bound -300.0 |
| Device.BBQDevice.EnableRealTimeData | src/lib.rs:171-177 | exactly one write is appended: 0B then 01 or 00, zero-padded, to setting data |
| Device.BBQDevice.RequestBatteryLevel | src/lib.rs:181-193 | exactly one write is appended: 08 24, zero-padded, to setting data |
| Device.BBQDevice.RealTime | src/lib.rs:198-219 | notifications are started on the real-time characteristic, no write is made, and the stream is RealTimeStream of the events |
| Device.BBQDevice.SettingResultsFor | src/lib.rs:223-246 | notifications are started on the setting-result characteristic, no write is made, and the stream is SettingResultStream of the events |
| Uuid.Uuid16ToUuid128 | src/uuid.rs:19-21 | the top 32 bits of the result are the short UUID and the low 96 bits are those of the Base UUID |
| Uuid.Uuid32ToUuid128 | src/uuid.rs:31-33 | the same for 32-bit UUIDs; the sum never exceeds 2^128-1 |
| Uuid.Uuid16Injective | src/uuid.rs:19-21 | distinct 16-bit UUIDs expand to distinct 128-bit UUIDs |
| Uuid.Uuid32Injective | src/uuid.rs:31-33 | distinct 32-bit UUIDs expand to distinct 128-bit UUIDs |
| Uuid.Uuid16IsUuid32 | src/uuid.rs:19-33 | a 16-bit UUID expands as the same value read as a 32-bit UUID |
| Uuid.ExpansionExamples | src/uuid.rs:13-30 | 0xACAB and 0xFFFFFFFF expand to the documented 128-bit values |
| UuidText.UpperHex | src/uuid.rs:48 | a value that fits is written as exactly `width` upper-case hexadecimal digits |
| UuidText.HexValueOfUpperHex | src/uuid.rs:48-53 | reading back a formatted group gives its value |
| UuidText.UpperHexOfHexValue | src/uuid.rs:84 | formatting the value of a group of upper-case digits gives the group back |
| UuidText.Split | src/uuid.rs:84 | `split('-')` gives at least one piece, and no piece contains '-' |
| UuidText.JoinSplit | src/uuid.rs:84 | the pieces joined with '-' give back the string |
| UuidText.SplitJoin | src/uuid.rs:84 | splitting pieces joined with '-' gives back the pieces |
| UuidText.FromStrRadix16 | src/uuid.rs:84 | an empty part never parses; a run of 1 to 32 hexadecimal digits parses to its value; a non-digit character, other than a leading '+', makes it fail |
| UuidText.ParseParts | src/uuid.rs:84 | the collected parts fail exactly when some part fails; otherwise they are the parts' values in order |
| UuidText.StringToUuid128 | src/uuid.rs:83-93 | ParseInt exactly when some part fails to parse, checked before the count; Incomplete exactly when all parse but there are not five |
| UuidText.Groups | src/uuid.rs:48-53 | the five groups fit 32, 16, 16, 16 and 48 bits and recombine to the UUID |
| UuidText.GroupsOfSum | src/uuid.rs:88-92 | five values that fit their widths combine to a UUID whose groups they are |
| UuidText.ShiftedSum | src/uuid.rs:88-92 | for parts that fit, the shifts lose no bits and the additions never wrap |
| UuidText.Uuid128ToString | src/uuid.rs:47-54 | the string is canonical: 36 characters, '-' at offsets 8, 13, 18 and 23, upper-case hexadecimal digits elsewhere |
| UuidText.FormatGroupValues | src/uuid.rs:47-54 | the groups of the string hold bits 127-96, 95-80, 79-64, 63-48 and 47-0 of the UUID |
| UuidText.ParseFormat | src/uuid.rs:99-105 | every UUID parses back from its string form |
| UuidText.FormatParse | src/uuid.rs:70-93 | every canonical upper-case string parses, and formatting the result gives back the string |
| Vectors.RealTimeVectors | src/lib.rs:346-369 | [0] gives nothing; [F6 FF F6 FF] gives two absent probes; [1 2 3 4] gives 51.3 and 102.7 degrees |
| Vectors.SettingResultVectors | src/lib.rs:371-401 | the unit tests' acknowledgement, battery-level (5979/6550), silence and empty-input results |
| Vectors.NonHexPartFails | src/uuid.rs:109 | a part holding a non-hexadecimal character (other than a leading '+') makes the parse fail with ParseInt, whatever the number of parts |
| Vectors.JoinedPartFails | src/uuid.rs:109 | '-'-free parts joined by '-', one of them holding a bad character, fail with ParseInt |
| Vectors.NonHexVector | src/uuid.rs:109 | "0000ACAB-0000-1Z00-8000-00805F9B34FB" fails with ParseInt |
| Vectors.JoinedPartsIncomplete | src/uuid.rs:110 | '-'-free parts that all parse, other than five of them, joined by '-', fail with Incomplete |
| Vectors.FourPartVector | src/uuid.rs:110 | "0000-1000-8000-00805F9B34FB" fails with Incomplete |

## Left out

- Floating point: temperatures are whole tenths of a degree. The model leaves out the rounding
  of `(temperature * 10.0) as i16`, the inexact `f32` value of 3276.7, and the float comparison
  with -1.0. The absent-probe test is "wire value is -10 tenths".
- Temperature.EncodeTemperature: takes whole tenths, so the truncation toward zero of
  `(temperature * 10.0) as i16` for a fractional input is not modelled. A NaN input passes both
  range comparisons of `src/lib.rs:331` and encodes as 0 in the source; the model has no NaN.
- Transport failures: `BluetoothError` is never produced, and every write and notification
  start succeeds. Each session method therefore returns nothing, except `SetTargetRange` and
  `SetTargetTemp`, which return the encoding error.
- Device.BBQDevice.constructor: the GATT service and characteristic lookups of `BBQDevice::new`
  are left out. The constructor takes the five resolved ids. `find_devices` and the device list
  are left out too; only the name test `IsCompatible` is modelled.
- The lookup UUIDs of `src/lib.rs` are made by `bluez_async::uuid_from_u16`, a foreign
  function. The model does not assume it equals the expansion in `src/uuid.rs`.
- Device.BBQDevice.RealTime: the live, unbounded, asynchronous streams are modelled as finite
  prefixes of events. Unsubscribing when a stream is dropped is not modelled.
- Logging (`info!`), the unused history-data characteristic and the error display strings are
  left out. `src/main.rs` (discovery, sleeps, printing) is not part of this model.
- UuidText.FromStrRadix16: a part is an optional '+' then one or more hexadecimal digits of
  either case, with a value below 2^128. The kind of `ParseIntError` (empty, invalid digit,
  overflow) is not kept. Characters stand for the bytes Rust reads.
- UuidText.StringToUuid128: the additions wrap modulo 2^128 as in a release build. A debug build
  panics instead when oversized parts overflow the sum. Parts are not limited to their
  canonical widths, as in the source.
- UuidText.Uuid128ToString: the `08X` format spec and its siblings are modelled as fixed-width fields, since
  the shifted and masked values always fit their widths.
- The doc examples of `uuid128_to_string` and `string_to_uuid128` (`src/uuid.rs:43-44`,
  `src/uuid.rs:79-80`) are not stated on their literal values; ParseFormat and FormatParse state
  both round trips for every UUID.
