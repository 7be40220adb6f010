/**
 * The thermometer's temperature fixed point: a signed 16-bit little-endian count of
 * tenths of a degree Celsius. Temperatures are modelled as whole tenths throughout.
 */
module Temperature {
  import opened Wrappers
  import opened Wire

  /** A probe that is not plugged in reports -1.0 degrees, i.e. -10 tenths. */
  const ABSENT_PROBE_TENTHS: int := -10
  /** The lower bound sent when only an upper target is wanted: -300.0 degrees. */
  const TARGET_TEMP_NONE_TENTHS: int := -3000
  /** `i16::MAX / 10` and `i16::MIN / 10` degrees, in tenths. */
  const TEMPERATURE_MAX_TENTHS: int := 0x7FFF
  const TEMPERATURE_MIN_TENTHS: int := -0x8000

  datatype Error = TemperatureEncodingError(tenths: int)

  predicate Encodable(tenths: int) {
    TEMPERATURE_MIN_TENTHS <= tenths <= TEMPERATURE_MAX_TENTHS
  }

  /** `encode_temperature`: refuses a temperature outside the 16-bit range, else its two wire bytes. */
  function EncodeTemperature(tenths: int): (r: Result<seq<byte>, Error>)
    ensures r.Ok? <==> TEMPERATURE_MIN_TENTHS <= tenths <= TEMPERATURE_MAX_TENTHS
    ensures r.Err? ==> r.error == TemperatureEncodingError(tenths)
    ensures r.Ok? ==> |r.value| == 2 && U16FromLe(r.value[0], r.value[1]) == (tenths + 0x1_0000) % 0x1_0000
  {
    if tenths < TEMPERATURE_MIN_TENTHS || tenths > TEMPERATURE_MAX_TENTHS then
      Err(TemperatureEncodingError(tenths))
    else
      Ok(I16ToLe(tenths))
  }

  /** `decode_temperature`: total over all two-byte inputs. */
  function DecodeTemperature(bytes: seq<byte>): (tenths: int)
    requires |bytes| == 2
    ensures Encodable(tenths)
    ensures (tenths + 0x1_0000) % 0x1_0000 == U16FromLe(bytes[0], bytes[1])
  {
    I16FromLe(bytes[0], bytes[1])
  }

  /** Every temperature that encodes decodes back to itself. */
  lemma DecodeEncode(tenths: int)
    requires Encodable(tenths)
    ensures EncodeTemperature(tenths).Ok?
    ensures DecodeTemperature(EncodeTemperature(tenths).value) == tenths
  {
    I16RoundTrip(tenths);
  }

  /** Every pair of wire bytes is the encoding of the temperature it decodes to. */
  lemma EncodeDecode(bytes: seq<byte>)
    requires |bytes| == 2
    ensures EncodeTemperature(DecodeTemperature(bytes)) == Ok(bytes)
  {
    I16BytesRoundTrip(bytes[0], bytes[1]);
    assert bytes == [bytes[0], bytes[1]];
  }

  /** The "no target" lower bound is the bytes 48 F4; the absent-probe value is F6 FF. */
  lemma SentinelBytes()
    ensures EncodeTemperature(TARGET_TEMP_NONE_TENTHS) == Ok([0x48, 0xF4])
    ensures EncodeTemperature(ABSENT_PROBE_TENTHS) == Ok([0xF6, 0xFF])
    ensures DecodeTemperature([0xF6, 0xFF]) == ABSENT_PROBE_TENTHS
  {
  }

  /** 3276.7 and -3276.8 degrees are the extremes that encode. */
  lemma EncodingBoundary()
    ensures EncodeTemperature(32767).Ok? && EncodeTemperature(-32768).Ok?
    ensures EncodeTemperature(32768) == Err(TemperatureEncodingError(32768))
    ensures EncodeTemperature(-32769) == Err(TemperatureEncodingError(-32769))
  {
  }
}
