/**
 * The session around one connected thermometer: which characteristic each command is
 * written to, and which notifications reach each of the two event streams.
 */
module Device {
  import opened Wrappers
  import opened Wire
  import opened Temperature
  import opened Commands
  import opened Notifications

  const DEVICE_NAMES: seq<string> := ["BBQ", "iBBQ"]

  /** `BBQDevice::is_compatible`, on the device's advertised name. */
  function IsCompatible(name: Option<string>): (r: bool)
    ensures r <==> name == Some("BBQ") || name == Some("iBBQ")
  {
    name.Some? && name.value in DEVICE_NAMES
  }

  /** A characteristic of the connected device, as the Bluetooth stack names it. */
  datatype CharacteristicId = CharacteristicId(path: string)

  datatype Write = Write(characteristic: CharacteristicId, value: seq<byte>)

  datatype CharacteristicEvent = Value(value: seq<byte>) | OtherCharacteristicEvent

  /** An event from the Bluetooth stack; only characteristic events matter to the device. */
  datatype BluetoothEvent =
    | Characteristic(id: CharacteristicId, event: CharacteristicEvent)
    | OtherEvent

  /**
   * The part of the Bluetooth session the device uses: the characteristic writes issued so far,
   * in order, and the characteristics whose notifications have been started.
   */
  class BluetoothSession {
    var writes: seq<Write>
    var notifying: set<CharacteristicId>

    constructor ()
      ensures writes == [] && notifying == {}
    {
      writes := [];
      notifying := {};
    }

    method WriteCharacteristicValue(id: CharacteristicId, value: seq<byte>)
      modifies this
      ensures writes == old(writes) + [Write(id, value)]
      ensures notifying == old(notifying)
    {
      writes := writes + [Write(id, value)];
    }

    method StartNotify(id: CharacteristicId)
      modifies this
      ensures notifying == old(notifying) + {id}
      ensures writes == old(writes)
    {
      notifying := notifying + {id};
    }
  }

  /** The payload of an event, when it is a value notification from the given characteristic. */
  function ValueFrom(id: CharacteristicId, event: BluetoothEvent): (r: Option<seq<byte>>)
    ensures r.Some? <==> event.Characteristic? && event.id == id && event.event.Value?
    ensures r.Some? ==> r.value == event.event.value
  {
    match event
    case Characteristic(eventId, Value(value)) => if eventId == id then Some(value) else None
    case _ => None
  }

  /** What one event contributes to the real-time stream: the parsed payload of a value notification, if it parses. */
  function RealTimeOf(id: CharacteristicId, event: BluetoothEvent): seq<RealTimeData> {
    var value := ValueFrom(id, event);
    var item := if value.Some? then ParseRealTime(value.value) else None;
    if item.Some? then [item.value] else []
  }

  /** The `filter_map` of `real_time`, over a finite prefix of the event stream. */
  function RealTimeStream(id: CharacteristicId, events: seq<BluetoothEvent>): (stream: seq<RealTimeData>)
    ensures |stream| <= |events|
  {
    if |events| == 0 then [] else RealTimeOf(id, events[0]) + RealTimeStream(id, events[1..])
  }

  /** The setting results seen on a finite prefix of the stream, and whether the stream has panicked. */
  datatype SettingResults = SettingResults(results: seq<SettingResult>, panicked: bool)

  /**
   * The `filter_map` of `setting_results`, over a finite prefix of the event stream: a payload
   * that fails the parser's assertions panics, and nothing after it is delivered.
   */
  function SettingResultStream(id: CharacteristicId, events: seq<BluetoothEvent>): (stream: SettingResults)
    ensures |stream.results| <= |events|
  {
    if |events| == 0 then SettingResults([], false)
    else
      var value := ValueFrom(id, events[0]);
      var item := if value.Some? then ParseSettingResult(value.value) else NoResult;
      match item
      case AssertionPanic => SettingResults([], true)
      case NoResult => SettingResultStream(id, events[1..])
      case Parsed(result) =>
        var rest := SettingResultStream(id, events[1..]);
        SettingResults([result] + rest.results, rest.panicked)
  }

  /** Each stream is read piece by piece: the events of a prefix give a prefix of the stream. */
  lemma {:induction false} RealTimeStreamAppend(id: CharacteristicId, a: seq<BluetoothEvent>, b: seq<BluetoothEvent>)
    ensures RealTimeStream(id, a + b) == RealTimeStream(id, a) + RealTimeStream(id, b)
  {
    if |a| == 0 {
      assert a + b == b;
    } else {
      var head := RealTimeOf(id, a[0]);
      var rest, tail := RealTimeStream(id, a[1..]), RealTimeStream(id, b);
      assert RealTimeStream(id, a + b) == head + RealTimeStream(id, a[1..] + b) by {
        assert (a + b)[0] == a[0] && (a + b)[1..] == a[1..] + b;
      }
      RealTimeStreamAppend(id, a[1..], b);
      assert head + (rest + tail) == (head + rest) + tail;
    }
  }

  /** Events that are not value notifications from the real-time characteristic leave the stream as it is. */
  lemma RealTimeStreamIgnores(id: CharacteristicId, a: seq<BluetoothEvent>, event: BluetoothEvent, b: seq<BluetoothEvent>)
    requires ValueFrom(id, event).None?
    ensures RealTimeStream(id, a + [event] + b) == RealTimeStream(id, a + b)
  {
    RealTimeStreamAppend(id, a + [event], b);
    RealTimeStreamAppend(id, a, [event]);
    RealTimeStreamAppend(id, a, b);
  }

  /** Every item of the stream is the parse of a value notification from the characteristic. */
  lemma {:induction false} RealTimeStreamSound(id: CharacteristicId, events: seq<BluetoothEvent>, k: nat)
    requires k < |RealTimeStream(id, events)|
    ensures exists i ::
              0 <= i < |events| && ValueFrom(id, events[i]).Some? &&
              ParseRealTime(ValueFrom(id, events[i]).value) == Some(RealTimeStream(id, events)[k])
  {
    var value := ValueFrom(id, events[0]);
    var item := if value.Some? then ParseRealTime(value.value) else None;
    var stream := RealTimeStream(id, events);
    if item.Some? && k == 0 {
      assert ValueFrom(id, events[0]).Some? && ParseRealTime(ValueFrom(id, events[0]).value) == Some(stream[0]);
    } else {
      var k' := if item.Some? then k - 1 else k;
      RealTimeStreamSound(id, events[1..], k');
      var i :| 0 <= i < |events[1..]| && ValueFrom(id, events[1..][i]).Some? &&
        ParseRealTime(ValueFrom(id, events[1..][i]).value) == Some(RealTimeStream(id, events[1..])[k']);
      assert events[1..][i] == events[i + 1];
    }
  }

  /** Every value notification from the characteristic that parses reaches the stream. */
  lemma {:induction false} RealTimeStreamComplete(id: CharacteristicId, events: seq<BluetoothEvent>, i: nat)
    requires i < |events| && ValueFrom(id, events[i]).Some? && ParseRealTime(ValueFrom(id, events[i]).value).Some?
    ensures ParseRealTime(ValueFrom(id, events[i]).value).value in RealTimeStream(id, events)
  {
    if i > 0 {
      RealTimeStreamComplete(id, events[1..], i - 1);
      assert events[1..][i - 1] == events[i];
    }
  }

  /** Reading the setting-result stream piece by piece; nothing follows a panic. */
  lemma {:induction false} SettingResultStreamAppend(id: CharacteristicId, a: seq<BluetoothEvent>, b: seq<BluetoothEvent>)
    ensures SettingResultStream(id, a).panicked ==> SettingResultStream(id, a + b) == SettingResultStream(id, a)
    ensures !SettingResultStream(id, a).panicked ==>
      SettingResultStream(id, a + b) ==
        SettingResults(SettingResultStream(id, a).results + SettingResultStream(id, b).results, SettingResultStream(id, b).panicked)
  {
    if |a| == 0 {
      assert a + b == b;
    } else {
      var value := ValueFrom(id, a[0]);
      var item := if value.Some? then ParseSettingResult(value.value) else NoResult;
      var tail := SettingResultStream(id, a[1..]);
      var sb := SettingResultStream(id, b);
      match item
      case AssertionPanic =>
        assert SettingResultStream(id, a + b) == SettingResults([], true) by {
          assert (a + b)[0] == a[0];
        }
      case NoResult =>
        assert SettingResultStream(id, a + b) == SettingResultStream(id, a[1..] + b) by {
          assert (a + b)[0] == a[0] && (a + b)[1..] == a[1..] + b;
        }
        SettingResultStreamAppend(id, a[1..], b);
      case Parsed(result) =>
        var whole := SettingResultStream(id, a[1..] + b);
        assert SettingResultStream(id, a + b) == SettingResults([result] + whole.results, whole.panicked) by {
          assert (a + b)[0] == a[0] && (a + b)[1..] == a[1..] + b;
        }
        SettingResultStreamAppend(id, a[1..], b);
        if !tail.panicked {
          assert [result] + (tail.results + sb.results) == ([result] + tail.results) + sb.results;
        }
    }
  }

  /**
   * The setting-result stream panics exactly when some value notification from its
   * characteristic fails the parser's assertions.
   */
  lemma {:induction false} SettingResultStreamPanics(id: CharacteristicId, events: seq<BluetoothEvent>)
    ensures SettingResultStream(id, events).panicked <==>
      exists i ::
        0 <= i < |events| && ValueFrom(id, events[i]).Some? &&
        ParseSettingResult(ValueFrom(id, events[i]).value) == AssertionPanic
  {
    if |events| > 0 {
      SettingResultStreamPanics(id, events[1..]);
      if ValueFrom(id, events[0]).Some? && ParseSettingResult(ValueFrom(id, events[0]).value) == AssertionPanic {
      } else {
        forall i | 1 <= i < |events|
          ensures events[i] == events[1..][i - 1]
        {
        }
        if SettingResultStream(id, events[1..]).panicked {
          var j :| 0 <= j < |events[1..]| && ValueFrom(id, events[1..][j]).Some? &&
            ParseSettingResult(ValueFrom(id, events[1..][j]).value) == AssertionPanic;
          assert ValueFrom(id, events[j + 1]).Some?;
        }
      }
    }
  }

  /** Every setting result delivered is the parse of a value notification from the characteristic. */
  lemma {:induction false} SettingResultStreamSound(id: CharacteristicId, events: seq<BluetoothEvent>, k: nat)
    requires k < |SettingResultStream(id, events).results|
    ensures exists i ::
              0 <= i < |events| && ValueFrom(id, events[i]).Some? &&
              ParseSettingResult(ValueFrom(id, events[i]).value) == Parsed(SettingResultStream(id, events).results[k])
  {
    var value := ValueFrom(id, events[0]);
    var item := if value.Some? then ParseSettingResult(value.value) else NoResult;
    var stream := SettingResultStream(id, events);
    if item.Parsed? && k == 0 {
      assert ValueFrom(id, events[0]).Some? && ParseSettingResult(ValueFrom(id, events[0]).value) == Parsed(stream.results[0]);
    } else {
      var k' := if item.Parsed? then k - 1 else k;
      SettingResultStreamSound(id, events[1..], k');
      var i :| 0 <= i < |events[1..]| && ValueFrom(id, events[1..][i]).Some? &&
        ParseSettingResult(ValueFrom(id, events[1..][i]).value) == Parsed(SettingResultStream(id, events[1..]).results[k']);
      assert events[1..][i] == events[i + 1];
    }
  }

  /**
   * Every value notification from the characteristic that parses to a result is delivered, unless
   * the stream has already panicked on an earlier event.
   */
  lemma {:induction false} SettingResultStreamComplete(id: CharacteristicId, events: seq<BluetoothEvent>, i: nat)
    requires i < |events| && ValueFrom(id, events[i]).Some? && ParseSettingResult(ValueFrom(id, events[i]).value).Parsed?
    requires !SettingResultStream(id, events[..i]).panicked
    ensures ParseSettingResult(ValueFrom(id, events[i]).value).result in SettingResultStream(id, events).results
  {
    if i > 0 {
      var prefix := events[..i];
      assert prefix[0] == events[0] && prefix[1..] == events[1..][..i - 1];
      assert events[1..][i - 1] == events[i];
      var value := ValueFrom(id, events[0]);
      var item := if value.Some? then ParseSettingResult(value.value) else NoResult;
      assert item != AssertionPanic && !SettingResultStream(id, events[1..][..i - 1]).panicked;
      SettingResultStreamComplete(id, events[1..], i - 1);
    }
  }

  /** A connected thermometer: the Bluetooth session and the five characteristics of its service. */
  class BBQDevice {
    const session: BluetoothSession
    const settingResultCharacteristic: CharacteristicId
    const accountAndVerifyCharacteristic: CharacteristicId
    const historyDataCharacteristic: CharacteristicId
    const realTimeDataCharacteristic: CharacteristicId
    const settingDataCharacteristic: CharacteristicId

    constructor (
      session: BluetoothSession,
      settingResult: CharacteristicId,
      accountAndVerify: CharacteristicId,
      historyData: CharacteristicId,
      realTimeData: CharacteristicId,
      settingData: CharacteristicId)
      ensures this.session == session
      ensures settingResultCharacteristic == settingResult
      ensures accountAndVerifyCharacteristic == accountAndVerify
      ensures historyDataCharacteristic == historyData
      ensures realTimeDataCharacteristic == realTimeData
      ensures settingDataCharacteristic == settingData
    {
      this.session := session;
      settingResultCharacteristic := settingResult;
      accountAndVerifyCharacteristic := accountAndVerify;
      historyDataCharacteristic := historyData;
      realTimeDataCharacteristic := realTimeData;
      settingDataCharacteristic := settingData;
    }

    /** Writes the credential to the account-and-verify characteristic. */
    method Authenticate()
      modifies session
      ensures session.writes == old(session.writes) + [Write(accountAndVerifyCharacteristic, CREDENTIAL_MSG)]
      ensures session.notifying == old(session.notifying)
    {
      session.WriteCharacteristicValue(accountAndVerifyCharacteristic, CREDENTIAL_MSG);
    }

    method SetTemperatureUnit(unit: TemperatureUnit)
      modifies session
      ensures session.writes == old(session.writes) + [Write(settingDataCharacteristic, EncodeCommand(SetUnit(unit)))]
      ensures session.notifying == old(session.notifying)
    {
      session.WriteCharacteristicValue(settingDataCharacteristic, SetUnitCommand(unit));
    }

    /** Writes one target-range command, or nothing when either bound is out of range. */
    method SetTargetRange(probe: byte, low: int, high: int) returns (r: Result<(), Error>)
      modifies session
      ensures r.Ok? <==> Encodable(low) && Encodable(high)
      ensures r.Err? ==> r.error == TemperatureEncodingError(if Encodable(low) then high else low)
      ensures session.writes == old(session.writes) +
        (if r.Ok? then [Write(settingDataCharacteristic, EncodeCommand(Commands.SetTargetRange(probe, low, high)))] else [])
      ensures session.notifying == old(session.notifying)
    {
      var value := SetTargetRangeCommand(probe, low, high);
      if value.Err? {
        return Err(value.error);
      }
      session.WriteCharacteristicValue(settingDataCharacteristic, value.value);
      return Ok(());
    }

    /** A target range whose lower bound is "no target". */
    method SetTargetTemp(probe: byte, target: int) returns (r: Result<(), Error>)
      modifies session
      ensures r.Ok? <==> Encodable(target)
      ensures r.Err? ==> r.error == TemperatureEncodingError(target)
      ensures session.writes == old(session.writes) +
        (if r.Ok? then [Write(settingDataCharacteristic, EncodeCommand(Commands.SetTargetRange(probe, TARGET_TEMP_NONE_TENTHS, target)))] else [])
      ensures session.notifying == old(session.notifying)
    {
      r := SetTargetRange(probe, TARGET_TEMP_NONE_TENTHS, target);
    }

    method EnableRealTimeData(enable: bool)
      modifies session
      ensures session.writes == old(session.writes) + [Write(settingDataCharacteristic, EncodeCommand(RealTimeToggle(enable)))]
      ensures session.notifying == old(session.notifying)
    {
      session.WriteCharacteristicValue(settingDataCharacteristic, RealTimeDataCommand(enable));
    }

    method RequestBatteryLevel()
      modifies session
      ensures session.writes == old(session.writes) + [Write(settingDataCharacteristic, EncodeCommand(Commands.RequestBatteryLevel))]
      ensures session.notifying == old(session.notifying)
    {
      session.WriteCharacteristicValue(settingDataCharacteristic, BatteryLevelRequest());
    }

    /**
     * Starts notifications on the real-time-data characteristic and returns what the stream
     * delivers for the given events.
     */
    method RealTime(events: seq<BluetoothEvent>) returns (stream: seq<RealTimeData>)
      modifies session
      ensures session.notifying == old(session.notifying) + {realTimeDataCharacteristic}
      ensures session.writes == old(session.writes)
      ensures stream == RealTimeStream(realTimeDataCharacteristic, events)
    {
      session.StartNotify(realTimeDataCharacteristic);
      stream := RealTimeStream(realTimeDataCharacteristic, events);
    }

    /**
     * Starts notifications on the setting-result characteristic and returns what the stream
     * delivers for the given events.
     */
    method SettingResultsFor(events: seq<BluetoothEvent>) returns (stream: SettingResults)
      modifies session
      ensures session.notifying == old(session.notifying) + {settingResultCharacteristic}
      ensures session.writes == old(session.writes)
      ensures stream == SettingResultStream(settingResultCharacteristic, events)
    {
      session.StartNotify(settingResultCharacteristic);
      stream := SettingResultStream(settingResultCharacteristic, events);
    }
  }
}
