/** The six-byte command buffers written to the setting-data characteristic, and the credential blob. */
module Commands {
  import opened Wrappers
  import opened Wire
  import opened Temperature
  import Notifications

  const CREDENTIAL_MSG: seq<byte> :=
    [0x21, 0x07, 0x06, 0x05, 0x04, 0x03, 0x02, 0x01, 0xB8, 0x22, 0x00, 0x00, 0x00, 0x00, 0x00]

  // Possible values for the first byte of 'setting data'.
  const SET_TARGET_TEMP_COMMAND: byte := 0x01
  const SET_UNIT_COMMAND: byte := 0x02
  const REAL_TIME_DATA_COMMAND: byte := 0x0B
  const REQUEST_PROPERTY_COMMAND: byte := 0x08

  const UNITS_CELCIUS_ARGUMENT: byte := 0x00
  const UNITS_FAHRENHEIT_ARGUMENT: byte := 0x01

  datatype TemperatureUnit = Celcius | Fahrenheit

  /** The buffer written by `set_temperature_unit`. */
  function SetUnitCommand(unit: TemperatureUnit): (value: seq<byte>)
    ensures |value| == 6 && value[0] == SET_UNIT_COMMAND
    ensures DecodeCommand(value) == Some(SetUnit(unit))
  {
    var argument := match unit
      case Celcius => UNITS_CELCIUS_ARGUMENT
      case Fahrenheit => UNITS_FAHRENHEIT_ARGUMENT;
    var value := [SET_UNIT_COMMAND, argument, 0, 0, 0, 0];
    assert value[2..] == [0, 0, 0, 0];
    value
  }

  /** The buffer written by `enable_real_time_data`. */
  function RealTimeDataCommand(enable: bool): (value: seq<byte>)
    ensures |value| == 6 && value[0] == REAL_TIME_DATA_COMMAND
    ensures DecodeCommand(value) == Some(RealTimeToggle(enable))
  {
    var argument := if enable then 0x01 else 0x00;
    var value := [REAL_TIME_DATA_COMMAND, argument, 0, 0, 0, 0];
    assert value[2..] == [0, 0, 0, 0];
    value
  }

  /** The buffer written by `request_battery_level`. */
  function BatteryLevelRequest(): (value: seq<byte>)
    ensures |value| == 6 && value[0] == REQUEST_PROPERTY_COMMAND
    ensures DecodeCommand(value) == Some(RequestBatteryLevel)
  {
    var value := [REQUEST_PROPERTY_COMMAND, Notifications.BATTERY_LEVEL_PROPERTY_ID, 0, 0, 0, 0];
    assert value[2..] == [0, 0, 0, 0];
    value
  }

  /**
   * The buffer written by `set_target_range`: both bounds must encode, the lower one being
   * checked first; the probe number is passed through unchecked.
   */
  function SetTargetRangeCommand(probe: byte, low: int, high: int): (r: Result<seq<byte>, Error>)
    ensures r.Ok? <==> Encodable(low) && Encodable(high)
    ensures !Encodable(low) ==> r == Err(TemperatureEncodingError(low))
    ensures Encodable(low) && !Encodable(high) ==> r == Err(TemperatureEncodingError(high))
    ensures r.Ok? ==> |r.value| == 6 && r.value[0] == SET_TARGET_TEMP_COMMAND && r.value[1] == probe
    ensures r.Ok? ==> DecodeTemperature(r.value[2..4]) == low && DecodeTemperature(r.value[4..6]) == high
  {
    var bottom := EncodeTemperature(low);
    if bottom.Err? then Err(bottom.error)
    else
      var top := EncodeTemperature(high);
      if top.Err? then Err(top.error)
      else
        DecodeEncode(low);
        DecodeEncode(high);
        var value := [SET_TARGET_TEMP_COMMAND, probe, bottom.value[0], bottom.value[1], top.value[0], top.value[1]];
        assert value[2..4] == bottom.value && value[4..6] == top.value;
        Ok(value)
  }

  /** The buffer written by `set_target_temp`: a range whose lower bound is "no target". */
  function SetTargetTempCommand(probe: byte, target: int): (r: Result<seq<byte>, Error>)
    ensures r.Ok? <==> Encodable(target)
    ensures r.Err? ==> r.error == TemperatureEncodingError(target)
    ensures r.Ok? ==> |r.value| == 6 && r.value[..4] == [SET_TARGET_TEMP_COMMAND, probe, 0x48, 0xF4]
    ensures r.Ok? ==> DecodeTemperature(r.value[4..6]) == target
  {
    SentinelBytes();
    SetTargetRangeCommand(probe, TARGET_TEMP_NONE_TENTHS, target)
  }

  /**
   * The commands the session sends on the setting-data characteristic. Used with the reference
   * decoder below to show that every buffer the session writes says one thing only.
   */
  datatype SettingCommand =
    | SetTargetRange(probe: byte, low: int, high: int)
    | SetUnit(unit: TemperatureUnit)
    | RealTimeToggle(enable: bool)
    | RequestBatteryLevel

  predicate WellFormed(command: SettingCommand) {
    command.SetTargetRange? ==> Encodable(command.low) && Encodable(command.high)
  }

  /** The buffer the session writes for a command. */
  function EncodeCommand(command: SettingCommand): (value: seq<byte>)
    requires WellFormed(command)
    ensures |value| == 6
  {
    match command
    case SetTargetRange(probe, low, high) => SetTargetRangeCommand(probe, low, high).value
    case SetUnit(unit) => SetUnitCommand(unit)
    case RealTimeToggle(enable) => RealTimeDataCommand(enable)
    case RequestBatteryLevel => BatteryLevelRequest()
  }

  /**
   * A reference decoder for the buffers the session writes: the command a buffer was built from,
   * or None for anything the session never writes.
   */
  function DecodeCommand(value: seq<byte>): (r: Option<SettingCommand>)
    ensures r.Some? ==> |value| == 6 && WellFormed(r.value)
  {
    if |value| != 6 then None
    else if value[0] == SET_TARGET_TEMP_COMMAND then
      Some(SetTargetRange(value[1], DecodeTemperature(value[2..4]), DecodeTemperature(value[4..6])))
    else if value[2..] != [0, 0, 0, 0] then None
    else if value[0] == SET_UNIT_COMMAND && value[1] == UNITS_CELCIUS_ARGUMENT then Some(SetUnit(Celcius))
    else if value[0] == SET_UNIT_COMMAND && value[1] == UNITS_FAHRENHEIT_ARGUMENT then Some(SetUnit(Fahrenheit))
    else if value[0] == REAL_TIME_DATA_COMMAND && value[1] in {0x00, 0x01} then Some(RealTimeToggle(value[1] == 0x01))
    else if value[0] == REQUEST_PROPERTY_COMMAND && value[1] == Notifications.BATTERY_LEVEL_PROPERTY_ID then Some(RequestBatteryLevel)
    else None
  }

  /** Every buffer the session writes decodes to the command it was built from. */
  lemma DecodeEncodeCommand(command: SettingCommand)
    requires WellFormed(command)
    ensures DecodeCommand(EncodeCommand(command)) == Some(command)
  {
  }

  /** Every buffer the reference decoder accepts is the session's buffer for the command it decodes to. */
  lemma EncodeDecodeCommand(value: seq<byte>)
    requires DecodeCommand(value).Some?
    ensures EncodeCommand(DecodeCommand(value).value) == value
  {
    var command := DecodeCommand(value).value;
    if command.SetTargetRange? {
      EncodeDecode(value[2..4]);
      EncodeDecode(value[4..6]);
      var encoded := EncodeCommand(command);
      assert encoded[2..4] == value[2..4] && encoded[4..6] == value[4..6];
      assert encoded == encoded[..2] + encoded[2..4] + encoded[4..6];
      assert value == value[..2] + value[2..4] + value[4..6];
    } else {
      assert value == value[..2] + value[2..];
    }
  }

  /** Distinct commands are written as distinct buffers. */
  lemma EncodeCommandInjective(a: SettingCommand, b: SettingCommand)
    requires WellFormed(a) && WellFormed(b) && EncodeCommand(a) == EncodeCommand(b)
    ensures a == b
  {
    DecodeEncodeCommand(a);
    DecodeEncodeCommand(b);
  }
}
