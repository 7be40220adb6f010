/**
 * The textual form of a 128-bit UUID: five '-'-separated groups of 8, 4, 4, 4 and 12 hexadecimal
 * digits (ITU-T Rec. X.667 | ISO/IEC 9834-8, section 6.4), and the parser that reads it back.
 */
module UuidText {
  import opened Wrappers
  import opened Uuid

  predicate IsUpperHexDigit(c: char) {
    '0' <= c <= '9' || 'A' <= c <= 'F'
  }

  predicate IsHexDigit(c: char) {
    IsUpperHexDigit(c) || 'a' <= c <= 'f'
  }

  predicate AllHexDigits(s: string) {
    forall i :: 0 <= i < |s| ==> IsHexDigit(s[i])
  }

  function DigitValue(c: char): (d: nat)
    requires IsHexDigit(c)
    ensures d < 16
  {
    if c <= '9' then c as nat - '0' as nat
    else if c <= 'F' then c as nat - 'A' as nat + 10
    else c as nat - 'a' as nat + 10
  }

  function UpperHexDigit(d: nat): (c: char)
    requires d < 16
    ensures IsUpperHexDigit(c) && DigitValue(c) == d
  {
    "0123456789ABCDEF"[d]
  }

  function Pow16(n: nat): (p: nat)
    ensures p > 0
  {
    if n == 0 then 1 else 16 * Pow16(n - 1)
  }

  /** The number a string of hexadecimal digits denotes, most significant digit first. */
  function HexValue(digits: string): (v: nat)
    requires forall i :: 0 <= i < |digits| ==> IsHexDigit(digits[i])
    ensures v < Pow16(|digits|)
    decreases |digits|
  {
    if |digits| == 0 then 0
    else HexValue(digits[..|digits| - 1]) * 16 + DigitValue(digits[|digits| - 1])
  }

  /**
   * The `0wX` format spec for a value that fits in `width` digits: exactly `width`
   * upper-case hexadecimal digits, zero-padded on the left.
   */
  function UpperHex(v: nat, width: nat): (s: string)
    requires v < Pow16(width)
    ensures |s| == width
    ensures forall i :: 0 <= i < |s| ==> IsUpperHexDigit(s[i])
  {
    if width == 0 then "" else UpperHex(v / 16, width - 1) + [UpperHexDigit(v % 16)]
  }

  /** Reading back a formatted group gives its value. */
  lemma {:induction false} HexValueOfUpperHex(v: nat, width: nat)
    requires v < Pow16(width)
    ensures forall i :: 0 <= i < |UpperHex(v, width)| ==> IsHexDigit(UpperHex(v, width)[i])
    ensures HexValue(UpperHex(v, width)) == v
  {
    if width > 0 {
      HexValueOfUpperHex(v / 16, width - 1);
      var s := UpperHex(v, width);
      assert s[..|s| - 1] == UpperHex(v / 16, width - 1);
    }
  }

  /** Formatting the value of a group of upper-case digits gives the group back. */
  lemma {:induction false} UpperHexOfHexValue(digits: string)
    requires forall i :: 0 <= i < |digits| ==> IsUpperHexDigit(digits[i])
    ensures HexValue(digits) < Pow16(|digits|)
    ensures UpperHex(HexValue(digits), |digits|) == digits
    decreases |digits|
  {
    if |digits| > 0 {
      var init := digits[..|digits| - 1];
      UpperHexOfHexValue(init);
      var v := HexValue(digits);
      assert v / 16 == HexValue(init) && v % 16 == DigitValue(digits[|digits| - 1]);
      assert digits == init + [digits[|digits| - 1]];
    }
  }

  /** `str::split(sep)`: the pieces between separators, so one more piece than there are separators. */
  function Split(s: string, sep: char): (parts: seq<string>)
    ensures |parts| >= 1
    ensures forall i :: 0 <= i < |parts| ==> sep !in parts[i]
    decreases |s|
  {
    if |s| == 0 then [""]
    else
      var rest := Split(s[1..], sep);
      if s[0] == sep then [""] + rest else [[s[0]] + rest[0]] + rest[1..]
  }

  /** The pieces joined back with the separator between them. */
  function Join(parts: seq<string>, sep: char): string
    requires |parts| >= 1
  {
    if |parts| == 1 then parts[0] else parts[0] + [sep] + Join(parts[1..], sep)
  }

  lemma {:induction false} JoinSplit(s: string, sep: char)
    ensures Join(Split(s, sep), sep) == s
    decreases |s|
  {
    if |s| > 0 {
      JoinSplit(s[1..], sep);
      var rest := Split(s[1..], sep);
      if s[0] == sep {
        assert s == [sep] + s[1..];
      } else {
        var parts := Split(s, sep);
        assert parts[1..] == rest[1..];
        if |rest| == 1 {
          assert s == [s[0]] + rest[0];
        } else {
          assert Join(rest, sep) == rest[0] + [sep] + Join(rest[1..], sep);
          assert s == [s[0]] + rest[0] + [sep] + Join(rest[1..], sep);
        }
      }
    }
  }

  /** Splitting a string that starts with a separator-free piece. */
  lemma {:induction false} SplitPrepend(a: string, t: string, sep: char)
    requires sep !in a
    ensures Split(a + t, sep) == [a + Split(t, sep)[0]] + Split(t, sep)[1..]
    decreases |a|
  {
    if |a| == 0 {
      var parts := Split(t, sep);
      assert a + t == t && a + parts[0] == parts[0];
      assert parts == [parts[0]] + parts[1..];
    } else {
      SplitPrepend(a[1..], t, sep);
      var parts := Split(t, sep);
      var rest := Split(a[1..] + t, sep);
      assert a[0] != sep && (a + t)[0] == a[0];
      assert (a + t)[1..] == a[1..] + t;
      assert rest[0] == a[1..] + parts[0] && rest[1..] == parts[1..];
      assert Split(a + t, sep) == [[a[0]] + rest[0]] + rest[1..];
      assert [a[0]] + (a[1..] + parts[0]) == a + parts[0];
    }
  }

  lemma {:induction false} SplitJoin(parts: seq<string>, sep: char)
    requires |parts| >= 1
    requires forall i :: 0 <= i < |parts| ==> sep !in parts[i]
    ensures Split(Join(parts, sep), sep) == parts
  {
    if |parts| == 1 {
      SplitPrepend(parts[0], "", sep);
      assert parts[0] + "" == parts[0];
    } else {
      SplitJoin(parts[1..], sep);
      var rest := Join(parts[1..], sep);
      SplitPrepend(parts[0], [sep] + rest, sep);
      assert parts[0] + [sep] + rest == parts[0] + ([sep] + rest);
      assert ([sep] + rest)[0] == sep && ([sep] + rest)[1..] == rest;
      assert Split([sep] + rest, sep) == [""] + parts[1..];
      assert parts[0] + "" == parts[0];
      assert parts == [parts[0]] + parts[1..];
    }
  }

  /**
   * `u128::from_str_radix(src, 16)`: an optional '+' then one or more hexadecimal digits of either
   * case, whose value must fit in 128 bits. The kind of error is not kept.
   */
  function FromStrRadix16(src: string): (r: Option<Uuid128>)
    ensures r.Some? ==> |src| > 0
    ensures 0 < |src| <= 32 && AllHexDigits(src) ==> r == Some(HexValue(src))
    ensures (exists i :: 0 <= i < |src| && !IsHexDigit(src[i]) && (i > 0 || src[i] != '+')) ==> r == None
  {
    if |src| == 0 then None
    else if src[0] == '+' && |src| == 1 then None
    else
      var digits := if src[0] == '+' then src[1..] else src;
      assert (exists i :: 0 <= i < |src| && !IsHexDigit(src[i]) && (i > 0 || src[i] != '+')) ==> !AllHexDigits(digits) by {
        if i :| 0 <= i < |src| && !IsHexDigit(src[i]) && (i > 0 || src[i] != '+') {
          if src[0] == '+' {
            assert digits[i - 1] == src[i];
          } else {
            assert digits[i] == src[i];
          }
        }
      }
      assert AllHexDigits(digits) && |digits| <= 32 ==> HexValue(digits) < TWO_128 by {
        if AllHexDigits(digits) && |digits| <= 32 {
          Pow16Monotone(|digits|, 32);
          Pow16Full();
        }
      }
      if AllHexDigits(digits) then
        var v := HexValue(digits);
        if v < TWO_128 then Some(v) else None
      else None
  }

  /** `collect::<Result<Vec<u128>, _>>()` over the parsed parts: the values, or nothing if any part fails. */
  function ParseParts(parts: seq<string>): (r: Option<seq<Uuid128>>)
    ensures r.None? <==> exists i :: 0 <= i < |parts| && FromStrRadix16(parts[i]).None?
    ensures r.Some? ==> |r.value| == |parts|
    ensures r.Some? ==> forall i :: 0 <= i < |parts| ==> FromStrRadix16(parts[i]) == Some(r.value[i])
  {
    if |parts| == 0 then Some([])
    else
      var head := FromStrRadix16(parts[0]);
      var tail := ParseParts(parts[1..]);
      if head.None? then None
      else if tail.None? then
        assert exists i :: 0 <= i < |parts[1..]| && FromStrRadix16(parts[1..][i]).None?;
        None
      else
        assert forall i :: 1 <= i < |parts| ==> parts[i] == parts[1..][i - 1];
        Some([head.value] + tail.value)
  }

  /** `x << n` on a `u128`, for the shift whose power of two is `pow`: bits past bit 127 are lost. */
  function Shl(x: Uuid128, pow: nat): Uuid128 {
    (x * pow) % TWO_128
  }

  /** `a + b` on a `u128` in a release build, where overflow wraps. */
  function WrappingAdd(a: Uuid128, b: Uuid128): Uuid128 {
    (a + b) % TWO_128
  }

  datatype ParseUuidError = ParseInt | Incomplete

  /** `string_to_uuid128` */
  function StringToUuid128(s: string): (r: Result<Uuid128, ParseUuidError>)
    ensures r == Err(ParseInt) <==> ParseParts(Split(s, '-')).None?
    ensures r == Err(Incomplete) <==> ParseParts(Split(s, '-')).Some? && |Split(s, '-')| != 5
  {
    var parsed := ParseParts(Split(s, '-'));
    if parsed.None? then Err(ParseInt)
    else
      var i := parsed.value;
      if |i| != 5 then Err(Incomplete)
      else
        Ok(WrappingAdd(WrappingAdd(WrappingAdd(WrappingAdd(
          Shl(i[0], TWO_96), Shl(i[1], TWO_80)), Shl(i[2], TWO_64)), Shl(i[3], TWO_48)), i[4]))
  }

  /** Five values that fit the widths of the groups: 32, 16, 16, 16 and 48 bits. */
  predicate FitsGroups(p: seq<nat>) {
    |p| == 5 && p[0] < 0x1_0000_0000 && p[1] < 0x1_0000 && p[2] < 0x1_0000 && p[3] < 0x1_0000 && p[4] < TWO_48
  }

  /** Five group values placed at bits 96, 80, 64, 48 and 0. */
  function Combine(p: seq<nat>): nat
    requires |p| == 5
  {
    p[0] * TWO_96 + p[1] * TWO_80 + p[2] * TWO_64 + p[3] * TWO_48 + p[4]
  }

  /** The five groups of a UUID: bits 127-96, 95-80, 79-64, 63-48 and 47-0. */
  function Groups(u: Uuid128): (g: seq<nat>)
    ensures FitsGroups(g) && Combine(g) == u
  {
    GroupsSum(u);
    [u / TWO_96, (u / TWO_80) % 0x1_0000, (u / TWO_64) % 0x1_0000, (u / TWO_48) % 0x1_0000, u % TWO_48]
  }

  lemma GroupsSum(u: Uuid128)
    ensures (u / TWO_96) * TWO_96 + ((u / TWO_80) % 0x1_0000) * TWO_80 + ((u / TWO_64) % 0x1_0000) * TWO_64
      + ((u / TWO_48) % 0x1_0000) * TWO_48 + u % TWO_48 == u
  {
    var q48 := u / TWO_48;
    assert u == q48 * TWO_48 + u % TWO_48;
    var q64 := u / TWO_64;
    assert q48 / 0x1_0000 == q64;
    assert q48 == q64 * 0x1_0000 + q48 % 0x1_0000;
    var q80 := u / TWO_80;
    assert q64 / 0x1_0000 == q80;
    assert q64 == q80 * 0x1_0000 + q64 % 0x1_0000;
    var q96 := u / TWO_96;
    assert q80 / 0x1_0000 == q96;
    assert q80 == q96 * 0x1_0000 + q80 % 0x1_0000;
  }

  /** Groups that fit their widths make a UUID whose groups they are. */
  lemma GroupsOfSum(p: seq<nat>)
    requires FitsGroups(p)
    ensures Combine(p) < TWO_128 && Groups(Combine(p)) == p
  {
    SumDivMod(p[0], p[1], p[2], p[3], p[4]);
  }

  lemma SumDivMod(p0: nat, p1: nat, p2: nat, p3: nat, p4: nat)
    requires p0 < 0x1_0000_0000 && p1 < 0x1_0000 && p2 < 0x1_0000 && p3 < 0x1_0000 && p4 < TWO_48
    ensures var u := p0 * TWO_96 + p1 * TWO_80 + p2 * TWO_64 + p3 * TWO_48 + p4;
      u < TWO_128 && u / TWO_96 == p0 && (u / TWO_80) % 0x1_0000 == p1 && (u / TWO_64) % 0x1_0000 == p2 &&
      (u / TWO_48) % 0x1_0000 == p3 && u % TWO_48 == p4
  {
    var u := p0 * TWO_96 + p1 * TWO_80 + p2 * TWO_64 + p3 * TWO_48 + p4;
    var q80 := p0 * 0x1_0000 + p1;
    var q64 := q80 * 0x1_0000 + p2;
    var q48 := q64 * 0x1_0000 + p3;
    assert u < TWO_128 by {
      assert p0 * TWO_96 <= 0xFFFF_FFFF * TWO_96;
      assert p1 * TWO_80 <= 0xFFFF * TWO_80 && p2 * TWO_64 <= 0xFFFF * TWO_64 && p3 * TWO_48 <= 0xFFFF * TWO_48;
    }
    DivModShift(u, q48, p4, TWO_48);
    DivModShift(q48, q64, p3, 0x1_0000);
    DivModShift(u, q64, p3 * TWO_48 + p4, TWO_64);
    DivModShift(q64, q80, p2, 0x1_0000);
    DivModShift(u, q80, p2 * TWO_64 + p3 * TWO_48 + p4, TWO_80);
    DivModShift(q80, p0, p1, 0x1_0000);
    DivModShift(u, p0, p1 * TWO_80 + p2 * TWO_64 + p3 * TWO_48 + p4, TWO_96);
  }

  /** Division by one of the shifts, for a quotient and remainder already known. */
  lemma DivModShift(u: nat, q: nat, r: nat, m: nat)
    requires m == 0x1_0000 || m == TWO_48 || m == TWO_64 || m == TWO_80 || m == TWO_96
    requires r < m && u == q * m + r
    ensures u / m == q && u % m == r
  {
    if m == 0x1_0000 {
    } else if m == TWO_48 {
    } else if m == TWO_64 {
    } else if m == TWO_80 {
    } else {
    }
  }

  lemma Pow16Widths()
    ensures Pow16(4) == 0x1_0000 && Pow16(8) == 0x1_0000_0000 && Pow16(12) == TWO_48
  {
  }

  /** Thirty-two hexadecimal digits are exactly the 128 bits of a `u128`. */
  lemma Pow16Full()
    ensures Pow16(32) == TWO_128
  {
    Pow16Widths();
    assert Pow16(16) == 0x1_0000 * TWO_48;
    assert Pow16(20) == 0x1_0000 * Pow16(16);
    assert Pow16(24) == 0x1_0000 * Pow16(20);
    assert Pow16(28) == 0x1_0000 * Pow16(24);
    assert Pow16(32) == 0x1_0000 * Pow16(28);
  }

  /** The 36-character form: upper-case hexadecimal digits with '-' at offsets 8, 13, 18 and 23. */
  predicate IsCanonical(s: string) {
    |s| == 36 &&
    forall i :: 0 <= i < |s| ==> if i in {8, 13, 18, 23} then s[i] == '-' else IsUpperHexDigit(s[i])
  }

  /** The characters of each of the five groups of a canonical string. */
  function GroupText(s: string): (g: seq<string>)
    requires |s| == 36
    ensures |g| == 5
  {
    [s[0..8], s[9..13], s[14..18], s[19..23], s[24..36]]
  }

  /** The five groups as `format!` writes them: 8, 4, 4, 4 and 12 digits. */
  function GroupStrings(p: seq<nat>): (g: seq<string>)
    requires FitsGroups(p)
    ensures |g| == 5 && |g[0]| == 8 && |g[1]| == 4 && |g[2]| == 4 && |g[3]| == 4 && |g[4]| == 12
    ensures forall k, i :: 0 <= k < 5 && 0 <= i < |g[k]| ==> IsUpperHexDigit(g[k][i])
  {
    Pow16Widths();
    [UpperHex(p[0], 8), UpperHex(p[1], 4), UpperHex(p[2], 4), UpperHex(p[3], 4), UpperHex(p[4], 12)]
  }

  /** `uuid128_to_string` */
  function Uuid128ToString(u: Uuid128): (s: string)
    ensures IsCanonical(s)
    ensures GroupText(s) == GroupStrings(Groups(u))
  {
    var g := GroupStrings(Groups(u));
    var s := g[0] + "-" + g[1] + "-" + g[2] + "-" + g[3] + "-" + g[4];
    DashedIsCanonical(g);
    s
  }

  /** Five upper-case groups of widths 8-4-4-4-12 joined by '-' make a canonical string. */
  lemma DashedIsCanonical(g: seq<string>)
    requires |g| == 5 && |g[0]| == 8 && |g[1]| == 4 && |g[2]| == 4 && |g[3]| == 4 && |g[4]| == 12
    requires forall k, i :: 0 <= k < 5 && 0 <= i < |g[k]| ==> IsUpperHexDigit(g[k][i])
    ensures var s := g[0] + "-" + g[1] + "-" + g[2] + "-" + g[3] + "-" + g[4];
      IsCanonical(s) && GroupText(s) == g
  {
    var s := g[0] + "-" + g[1] + "-" + g[2] + "-" + g[3] + "-" + g[4];
    assert s[0..8] == g[0] && s[9..13] == g[1] && s[14..18] == g[2] && s[19..23] == g[3] && s[24..36] == g[4];
    forall i | 0 <= i < 36
      ensures if i in {8, 13, 18, 23} then s[i] == '-' else IsUpperHexDigit(s[i])
    {
      if i < 8 { assert s[i] == g[0][i]; }
      else if 8 < i < 13 { assert s[i] == g[1][i - 9]; }
      else if 13 < i < 18 { assert s[i] == g[2][i - 14]; }
      else if 18 < i < 23 { assert s[i] == g[3][i - 19]; }
      else if 23 < i { assert s[i] == g[4][i - 24]; }
    }
  }

  /** Each group of the string holds the corresponding bits of the UUID. */
  lemma FormatGroupValues(u: Uuid128, k: nat)
    requires k < 5
    ensures forall i :: 0 <= i < |GroupText(Uuid128ToString(u))[k]| ==> IsHexDigit(GroupText(Uuid128ToString(u))[k][i])
    ensures HexValue(GroupText(Uuid128ToString(u))[k]) == Groups(u)[k]
  {
    var g := Groups(u);
    Pow16Widths();
    var width := [8, 4, 4, 4, 12][k];
    HexValueOfUpperHex(g[k], width);
  }

  /** With parts that fit their groups, the shifted sum neither loses bits nor wraps. */
  lemma ShiftedSum(p: seq<Uuid128>)
    requires FitsGroups(p)
    ensures WrappingAdd(WrappingAdd(WrappingAdd(WrappingAdd(
        Shl(p[0], TWO_96), Shl(p[1], TWO_80)), Shl(p[2], TWO_64)), Shl(p[3], TWO_48)), p[4])
      == Combine(p)
  {
    var a0, a1, a2, a3 := p[0] * TWO_96, p[1] * TWO_80, p[2] * TWO_64, p[3] * TWO_48;
    assert a0 <= 0xFFFF_FFFF * TWO_96 && a1 <= 0xFFFF * TWO_80 && a2 <= 0xFFFF * TWO_64 && a3 <= 0xFFFF * TWO_48;
    assert Shl(p[0], TWO_96) == a0 && Shl(p[1], TWO_80) == a1 && Shl(p[2], TWO_64) == a2 && Shl(p[3], TWO_48) == a3;
    assert a0 + a1 + a2 + a3 + p[4] < TWO_128;
    assert WrappingAdd(a0, a1) == a0 + a1;
    assert WrappingAdd(a0 + a1, a2) == a0 + a1 + a2;
    assert WrappingAdd(a0 + a1 + a2, a3) == a0 + a1 + a2 + a3;
    assert WrappingAdd(a0 + a1 + a2 + a3, p[4]) == Combine(p);
  }

  /** A canonical string is its five groups joined by '-'. */
  lemma CanonicalIsJoin(s: string)
    requires IsCanonical(s)
    ensures s == Join(GroupText(s), '-')
  {
    var g := GroupText(s);
    assert s == g[0] + [s[8]] + g[1] + [s[13]] + g[2] + [s[18]] + g[3] + [s[23]] + g[4];
    JoinFive(g, '-');
  }

  /** Each group of a canonical string is a run of one to twelve upper-case digits. */
  lemma CanonicalGroupDigits(s: string, k: nat)
    requires IsCanonical(s) && k < 5
    ensures 0 < |GroupText(s)[k]| <= 12
    ensures forall i :: 0 <= i < |GroupText(s)[k]| ==> IsUpperHexDigit(GroupText(s)[k][i])
  {
    var g := GroupText(s);
    var offset := [0, 9, 14, 19, 24][k];
    forall i | 0 <= i < |g[k]|
      ensures IsUpperHexDigit(g[k][i])
    {
      assert g[k][i] == s[offset + i];
    }
  }

  /** Each group of a canonical string parses to the number its digits denote. */
  lemma CanonicalGroupParses(s: string, k: nat)
    requires IsCanonical(s) && k < 5
    ensures forall i :: 0 <= i < |GroupText(s)[k]| ==> IsHexDigit(GroupText(s)[k][i])
    ensures HexValue(GroupText(s)[k]) < Pow16(|GroupText(s)[k]|)
    ensures FromStrRadix16(GroupText(s)[k]) == Some(HexValue(GroupText(s)[k]))
  {
    CanonicalGroupDigits(s, k);
    FromStrRadixUpper(GroupText(s)[k]);
  }

  lemma JoinFive(g: seq<string>, sep: char)
    requires |g| == 5
    ensures Join(g, sep) == g[0] + [sep] + g[1] + [sep] + g[2] + [sep] + g[3] + [sep] + g[4]
  {
    assert g[1..][1..] == g[2..] && g[2..][1..] == g[3..] && g[3..][1..] == g[4..];
    assert Join(g[3..], sep) == g[3] + [sep] + g[4];
    assert Join(g[2..], sep) == g[2] + [sep] + (g[3] + [sep] + g[4]);
    assert Join(g[1..], sep) == g[1] + [sep] + (g[2] + [sep] + (g[3] + [sep] + g[4]));
  }

  /** A group of at most twelve upper-case digits parses to its value. */
  lemma FromStrRadixUpper(digits: string)
    requires 0 < |digits| <= 12
    requires forall i :: 0 <= i < |digits| ==> IsUpperHexDigit(digits[i])
    ensures HexValue(digits) < Pow16(|digits|)
    ensures FromStrRadix16(digits) == Some(HexValue(digits))
  {
    var v := HexValue(digits);
    Pow16Monotone(|digits|, 12);
    Pow16Widths();
    assert v < TWO_128;
    assert digits[0] != '+';
    assert forall i :: 0 <= i < |digits| ==> IsHexDigit(digits[i]);
  }

  lemma {:induction false} Pow16Monotone(m: nat, n: nat)
    requires m <= n
    ensures Pow16(m) <= Pow16(n)
    decreases n
  {
    if m < n {
      Pow16Monotone(m, n - 1);
    }
  }

  /** The value of group `k` of a canonical string: it fits the group's width and is what the group parses to. */
  function GroupValue(s: string, k: nat): (v: Uuid128)
    requires IsCanonical(s) && k < 5
    ensures v < Pow16(|GroupText(s)[k]|)
    ensures FromStrRadix16(GroupText(s)[k]) == Some(v)
  {
    CanonicalGroupParses(s, k);
    HexValue(GroupText(s)[k])
  }

  /** The values of the five groups of a canonical string; each fits its width. */
  function GroupValues(s: string): (p: seq<Uuid128>)
    requires IsCanonical(s)
    ensures FitsGroups(p)
    ensures forall k :: 0 <= k < 5 ==> FromStrRadix16(GroupText(s)[k]) == Some(p[k])
  {
    Pow16Widths();
    [GroupValue(s, 0), GroupValue(s, 1), GroupValue(s, 2), GroupValue(s, 3), GroupValue(s, 4)]
  }

  /** Reading a canonical string splits it into its groups and parses each. */
  lemma ParseCanonical(s: string)
    requires IsCanonical(s)
    ensures ParseParts(Split(s, '-')) == Some(GroupValues(s))
  {
    var g := GroupText(s);
    CanonicalIsJoin(s);
    forall k | 0 <= k < 5
      ensures '-' !in g[k]
    {
      CanonicalGroupDigits(s, k);
    }
    SplitJoin(g, '-');
    var p := GroupValues(s);
    var r := ParseParts(g);
    assert forall k :: 0 <= k < |g| ==> FromStrRadix16(g[k]).Some?;
    assert r.value == p;
  }

  /** A string whose parts parse to five values that fit their groups reads as their shifted sum. */
  lemma StringOfGroups(s: string, p: seq<Uuid128>)
    requires ParseParts(Split(s, '-')) == Some(p) && FitsGroups(p)
    ensures StringToUuid128(s).Ok?
    ensures StringToUuid128(s).value == Combine(p)
  {
    ShiftedSum(p);
  }

  /** Round trip: every UUID reads back from its string form. */
  lemma ParseFormat(u: Uuid128)
    ensures StringToUuid128(Uuid128ToString(u)) == Ok(u)
  {
    var s := Uuid128ToString(u);
    forall k | 0 <= k < 5
      ensures GroupValues(s)[k] == Groups(u)[k]
    {
      FormatGroupValues(u, k);
      CanonicalGroupParses(s, k);
    }
    assert GroupValues(s) == Groups(u);
    var v := CanonicalValue(s);
    assert v == Combine(Groups(v)) == Combine(Groups(u)) == u;
  }

  /** The UUID a canonical string reads as: the shifted sum of its group values. */
  function CanonicalValue(s: string): (u: Uuid128)
    requires IsCanonical(s)
    ensures StringToUuid128(s) == Ok(u)
    ensures Groups(u) == GroupValues(s)
  {
    var p := GroupValues(s);
    ParseCanonical(s);
    StringOfGroups(s, p);
    GroupsOfSum(p);
    var u := Combine(p);
    assert StringToUuid128(s).value == u;
    u
  }

  /** Five groups of upper-case digits are the groups `format!` writes for the numbers they denote. */
  lemma GroupStringsOfDigits(g: seq<string>, p: seq<nat>)
    requires |g| == 5 && |g[0]| == 8 && |g[1]| == 4 && |g[2]| == 4 && |g[3]| == 4 && |g[4]| == 12
    requires forall k, i :: 0 <= k < 5 && 0 <= i < |g[k]| ==> IsUpperHexDigit(g[k][i])
    requires FitsGroups(p) && forall k :: 0 <= k < 5 ==> p[k] == HexValue(g[k])
    ensures forall k :: 0 <= k < 5 ==> GroupStrings(p)[k] == g[k]
  {
    forall k | 0 <= k < 5
      ensures UpperHex(p[k], |g[k]|) == g[k]
    {
      UpperHexOfHexValue(g[k]);
    }
    var w := GroupStrings(p);
    assert w[0] == g[0] && w[1] == g[1] && w[2] == g[2] && w[3] == g[3] && w[4] == g[4];
  }

  /** The groups `format!` writes for the group values of a canonical string are that string's own groups. */
  lemma GroupStringsOfCanonical(s: string)
    requires IsCanonical(s)
    ensures forall k :: 0 <= k < 5 ==> GroupStrings(GroupValues(s))[k] == GroupText(s)[k]
  {
    var g := GroupText(s);
    var p := GroupValues(s);
    forall k | 0 <= k < 5
      ensures forall i :: 0 <= i < |g[k]| ==> IsUpperHexDigit(g[k][i])
      ensures p[k] == HexValue(g[k])
    {
      CanonicalGroupDigits(s, k);
    }
    GroupStringsOfDigits(g, p);
  }

  /** Every canonical string reads as a UUID whose string form is that same string. */
  lemma FormatParse(s: string)
    requires IsCanonical(s)
    ensures StringToUuid128(s).Ok?
    ensures Uuid128ToString(StringToUuid128(s).value) == s
  {
    var g := GroupText(s);
    var u := CanonicalValue(s);
    GroupStringsOfCanonical(s);
    CanonicalIsJoin(s);
    JoinFive(g, '-');
    assert Uuid128ToString(u) == g[0] + "-" + g[1] + "-" + g[2] + "-" + g[3] + "-" + g[4];
  }
}
