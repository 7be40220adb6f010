/**
 * The concrete vectors of the unit tests in `src/lib.rs` and of the parse-failure test in
 * `src/uuid.rs`, stated on the model.
 */
module Vectors {
  import opened Wrappers
  import Wire
  import opened Notifications
  import opened Uuid
  import opened UuidText

  lemma RealTimeVectors()
    ensures ParseRealTime([0]) == None
    ensures ParseRealTime([]) == Some(RealTimeData([]))
    ensures ParseRealTime([0xF6, 0xFF, 0xF6, 0xFF]) == Some(RealTimeData([None, None]))
    ensures ParseRealTime([1, 2, 3, 4]) == Some(RealTimeData([Some(513), Some(1027)]))
  {
    var absent: seq<Wire.byte> := [0xF6, 0xFF, 0xF6, 0xFF];
    ParseRealTimeSlots(absent);
    assert ParseRealTime(absent).value.probeTemperatures == [None, None];
    var present: seq<Wire.byte> := [1, 2, 3, 4];
    ParseRealTimeSlots(present);
    assert ParseRealTime(present).value.probeTemperatures == [Some(513), Some(1027)];
  }

  lemma SettingResultVectors()
    ensures ParseSettingResult([]) == NoResult
    ensures ParseSettingResult([0xFF, 0x02, 0x00, 0x00, 0x00, 0x00]) == Parsed(AcknowledgeCommand(0x02))
    ensures ParseSettingResult([0x24, 0x5B, 0x17, 0x96, 0x19, 0x00]) == Parsed(BatteryLevel(5979, 6550))
    ensures ParseSettingResult([0x04, 0xFF, 0x00, 0x00, 0x00, 0x00]) == Parsed(SilencePressed)
  {
  }

  /**
   * A part holding a character that is neither a hexadecimal digit nor a leading '+' fails to
   * parse, and the whole string with it, whatever the number of parts.
   */
  lemma NonHexPartFails(s: string, k: nat, i: nat)
    requires k < |Split(s, '-')| && i < |Split(s, '-')[k]|
    requires !IsHexDigit(Split(s, '-')[k][i]) && (i > 0 || Split(s, '-')[k][i] != '+')
    ensures StringToUuid128(s) == Err(ParseInt)
  {
    var part := Split(s, '-')[k];
    assert FromStrRadix16(part) == None;
  }

  /** Parts joined by '-', one of which holds a character that is not a digit, do not parse. */
  lemma JoinedPartFails(parts: seq<string>, k: nat, i: nat)
    requires |parts| >= 1 && forall j :: 0 <= j < |parts| ==> '-' !in parts[j]
    requires k < |parts| && i < |parts[k]| && !IsHexDigit(parts[k][i]) && (i > 0 || parts[k][i] != '+')
    ensures StringToUuid128(Join(parts, '-')) == Err(ParseInt)
  {
    SplitJoin(parts, '-');
    NonHexPartFails(Join(parts, '-'), k, i);
  }

  /**
   * The first string of the parse-failure test, "0000ACAB-0000-1Z00-8000-00805F9B34FB", written
   * part by part: the third part holds a 'Z'.
   */
  lemma NonHexVector(s: string)
    requires s == "0000ACAB" + "-" + "0000" + "-" + "1Z00" + "-" + "8000" + "-" + "00805F9B34FB"
    ensures StringToUuid128(s) == Err(ParseInt)
  {
    var parts := ["0000ACAB", "0000", "1Z00", "8000", "00805F9B34FB"];
    JoinFive(parts, '-');
    JoinedPartFails(parts, 2, 1);
  }

  /** Parts joined by '-' that all parse, but are not five, are an incomplete UUID. */
  lemma JoinedPartsIncomplete(parts: seq<string>)
    requires |parts| >= 1 && forall j :: 0 <= j < |parts| ==> '-' !in parts[j]
    requires forall j :: 0 <= j < |parts| ==> FromStrRadix16(parts[j]).Some?
    requires |parts| != 5
    ensures StringToUuid128(Join(parts, '-')) == Err(Incomplete)
  {
    SplitJoin(parts, '-');
  }

  lemma JoinFour(g: seq<string>, sep: char)
    requires |g| == 4
    ensures Join(g, sep) == g[0] + [sep] + g[1] + [sep] + g[2] + [sep] + g[3]
  {
    assert g[1..][1..] == g[2..] && g[2..][1..] == g[3..];
    assert Join(g[2..], sep) == g[2] + [sep] + g[3];
    assert Join(g[1..], sep) == g[1] + [sep] + (g[2] + [sep] + g[3]);
  }

  /**
   * The second string of the parse-failure test, "0000-1000-8000-00805F9B34FB", written part by
   * part: every part parses, but there are only four.
   */
  lemma FourPartVector(s: string)
    requires s == "0000" + "-" + "1000" + "-" + "8000" + "-" + "00805F9B34FB"
    ensures StringToUuid128(s) == Err(Incomplete)
  {
    var parts := ["0000", "1000", "8000", "00805F9B34FB"];
    assert StringToUuid128(Join(parts, '-')) == Err(Incomplete) by {
      forall j | 0 <= j < 4
        ensures FromStrRadix16(parts[j]).Some?
      {
        assert AllHexDigits(parts[j]);
      }
      JoinedPartsIncomplete(parts);
    }
    JoinFour(parts, '-');
  }
}
