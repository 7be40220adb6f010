/** Parsers for the two notification payloads the thermometer sends. */
module Notifications {
  import opened Wrappers
  import opened Wire
  import opened Temperature

  // Possible values for the first byte of a setting result.
  const SILENCE_PRESSED: byte := 0x04
  const BATTERY_LEVEL_PROPERTY_ID: byte := 0x24
  const ACKNOWLEDGE_COMMAND: byte := 0xFF

  /** One slot per probe, in payload order; None when the probe is disconnected. Values in tenths. */
  datatype RealTimeData = RealTimeData(probeTemperatures: seq<Option<int>>)

  datatype SettingResult =
    | AcknowledgeCommand(commandId: byte)
    | BatteryLevel(currentVoltage: u16, maxVoltage: u16)
    | SilencePressed

  /**
   * What `SettingResult::try_parse` does with a payload: returns nothing, returns a result,
   * or fails one of its `assert!`s and panics.
   */
  datatype SettingParse = NoResult | Parsed(result: SettingResult) | AssertionPanic

  /** One probe slot: the decoded temperature, with the absent-probe value read as None. */
  function ProbeSlot(bytes: seq<byte>): (slot: Option<int>)
    requires |bytes| == 2
    ensures slot == None <==> bytes == [0xF6, 0xFF]
    ensures slot.Some? ==> slot.value != ABSENT_PROBE_TENTHS && EncodeTemperature(slot.value) == Ok(bytes)
  {
    EncodeDecode(bytes);
    var temperature := DecodeTemperature(bytes);
    if temperature == ABSENT_PROBE_TENTHS then None else Some(temperature)
  }

  /** `chunks_exact(2)` followed by the per-chunk map, over a payload of even length. */
  function ProbeSlots(value: seq<byte>): (slots: seq<Option<int>>)
    requires |value| % 2 == 0
    ensures |slots| == |value| / 2
    ensures forall i :: 0 <= i < |slots| ==> slots[i] == ProbeSlot(value[2 * i .. 2 * i + 2])
    decreases |value|
  {
    if |value| == 0 then []
    else
      var rest := ProbeSlots(value[2..]);
      assert forall i :: 0 < i < |value| / 2 ==> value[2..][2 * (i - 1) .. 2 * (i - 1) + 2] == value[2 * i .. 2 * i + 2];
      [ProbeSlot(value[..2])] + rest
  }

  /** `RealTimeData::try_parse` */
  function ParseRealTime(value: seq<byte>): (r: Option<RealTimeData>)
    ensures r == None <==> |value| % 2 != 0
  {
    if |value| % 2 != 0 then None else Some(RealTimeData(ProbeSlots(value)))
  }

  /** A payload of even length parses to |value|/2 slots, slot i being the temperature in bytes 2i, 2i+1. */
  lemma ParseRealTimeSlots(value: seq<byte>)
    requires |value| % 2 == 0
    ensures ParseRealTime(value).Some?
    ensures |ParseRealTime(value).value.probeTemperatures| == |value| / 2
    ensures forall i :: 0 <= i < |value| / 2 ==>
      ParseRealTime(value).value.probeTemperatures[i] ==
        (var t := I16FromLe(value[2 * i], value[2 * i + 1]); if t == ABSENT_PROBE_TENTHS then None else Some(t))
  {
    var slots := ProbeSlots(value);
    forall i | 0 <= i < |value| / 2
      ensures slots[i] ==
        (var t := I16FromLe(value[2 * i], value[2 * i + 1]); if t == ABSENT_PROBE_TENTHS then None else Some(t))
    {
      assert value[2 * i .. 2 * i + 2] == [value[2 * i], value[2 * i + 1]];
    }
  }

  /** A slot value the device can report: a 16-bit temperature other than the absent-probe value. */
  predicate Reportable(slot: Option<int>) {
    slot.Some? ==> Encodable(slot.value) && slot.value != ABSENT_PROBE_TENTHS
  }

  /** The payload the device sends for the given probe slots: the inverse of ParseRealTime. */
  function EncodeRealTime(slots: seq<Option<int>>): (value: seq<byte>)
    requires forall i :: 0 <= i < |slots| ==> Reportable(slots[i])
    ensures |value| == 2 * |slots|
  {
    if |slots| == 0 then []
    else
      assert Reportable(slots[0]);
      (if slots[0] == None then [0xF6, 0xFF] else EncodeTemperature(slots[0].value).value)
      + EncodeRealTime(slots[1..])
  }

  /** Parsing what the device sends gives back the probe slots. */
  lemma {:induction false} ParseEncodeRealTime(slots: seq<Option<int>>)
    requires forall i :: 0 <= i < |slots| ==> Reportable(slots[i])
    ensures ParseRealTime(EncodeRealTime(slots)) == Some(RealTimeData(slots))
  {
    if |slots| > 0 {
      var value := EncodeRealTime(slots);
      assert ProbeSlot(value[..2]) == slots[0] by {
        if slots[0] == None {
          assert value[..2] == [0xF6, 0xFF];
        } else {
          assert Reportable(slots[0]);
          DecodeEncode(slots[0].value);
          assert value[..2] == EncodeTemperature(slots[0].value).value;
        }
      }
      assert ProbeSlots(value[2..]) == slots[1..] by {
        ParseEncodeRealTime(slots[1..]);
        assert value[2..] == EncodeRealTime(slots[1..]);
      }
      assert ProbeSlots(value) == [slots[0]] + slots[1..] == slots;
    }
  }

  /** Every payload that parses is exactly what the device sends for the slots it parses to. */
  lemma {:induction false} EncodeParseRealTime(value: seq<byte>)
    requires |value| % 2 == 0
    ensures var slots := ParseRealTime(value).value.probeTemperatures;
      (forall i :: 0 <= i < |slots| ==> Reportable(slots[i])) && EncodeRealTime(slots) == value
    decreases |value|
  {
    if |value| > 0 {
      EncodeParseRealTime(value[2..]);
      var slots := ProbeSlots(value);
      assert slots[1..] == ProbeSlots(value[2..]);
      assert value == value[..2] + value[2..];
    }
  }

  /** `SettingResult::try_parse` */
  function ParseSettingResult(value: seq<byte>): (r: SettingParse)
    ensures r == NoResult <==>
      |value| != 6 || value[0] !in {ACKNOWLEDGE_COMMAND, BATTERY_LEVEL_PROPERTY_ID, SILENCE_PRESSED}
    ensures r == AssertionPanic <==>
      |value| == 6 &&
      ((value[0] == ACKNOWLEDGE_COMMAND && value[2..] != [0, 0, 0, 0]) ||
       (value[0] == SILENCE_PRESSED && value[1..] != [0xFF, 0, 0, 0, 0]))
  {
    if |value| != 6 then NoResult
    else if value[0] == ACKNOWLEDGE_COMMAND then
      if value[2..] == [0, 0, 0, 0] then Parsed(AcknowledgeCommand(value[1])) else AssertionPanic
    else if value[0] == BATTERY_LEVEL_PROPERTY_ID then
      Parsed(BatteryLevel(U16FromLe(value[1], value[2]), U16FromLe(value[3], value[4])))
    else if value[0] == SILENCE_PRESSED then
      if value[1..] == [0xFF, 0, 0, 0, 0] then Parsed(SilencePressed) else AssertionPanic
    else
      NoResult
  }

  /** The six-byte frame the device sends for a setting result; byte 5 of a battery level is sent as 0. */
  function EncodeSettingResult(result: SettingResult): (value: seq<byte>)
    ensures |value| == 6
  {
    match result
    case AcknowledgeCommand(id) => [ACKNOWLEDGE_COMMAND, id, 0, 0, 0, 0]
    case BatteryLevel(current, max) => [BATTERY_LEVEL_PROPERTY_ID] + U16ToLe(current) + U16ToLe(max) + [0]
    case SilencePressed => [SILENCE_PRESSED, 0xFF, 0, 0, 0, 0]
  }

  /** Every setting result survives being sent and parsed. */
  lemma ParseEncodeSettingResult(result: SettingResult)
    ensures ParseSettingResult(EncodeSettingResult(result)) == Parsed(result)
  {
    match result
    case AcknowledgeCommand(id) =>
    case BatteryLevel(current, max) =>
      var value := EncodeSettingResult(result);
      assert value[1..3] == U16ToLe(current) && value[3..5] == U16ToLe(max);
    case SilencePressed =>
  }

  /**
   * A payload that parses is the frame of its result, except byte 5 of a battery level,
   * which the parser ignores.
   */
  lemma EncodeParseSettingResult(value: seq<byte>)
    requires ParseSettingResult(value).Parsed?
    ensures var result := ParseSettingResult(value).result;
      EncodeSettingResult(result)[..5] == value[..5] &&
      (!result.BatteryLevel? ==> EncodeSettingResult(result) == value)
  {
    var result := ParseSettingResult(value).result;
    if result.BatteryLevel? {
      U16BytesRoundTrip(value[1], value[2]);
      U16BytesRoundTrip(value[3], value[4]);
    } else {
      assert value == value[..2] + value[2..];
    }
  }

  /** With a known tag and six bytes the parser never returns nothing: it returns a result or panics. */
  lemma KnownTagNeverNone(value: seq<byte>)
    requires |value| == 6 && value[0] in {ACKNOWLEDGE_COMMAND, BATTERY_LEVEL_PROPERTY_ID, SILENCE_PRESSED}
    ensures ParseSettingResult(value) != NoResult
  {
  }
}
