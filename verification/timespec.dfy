/**
 The time-expression parser of the trimming script: `SS`, `MM:SS` or
 `HH:MM:SS`, split on `:`, each part read as a decimal integer.
 */
module TimeSpec {
  import opened Results
  import opened Text

  datatype TimeError =
    | InvalidTimeFormat(text: string)  // not one, two or three `:`-separated parts
    | InvalidInteger(part: string)     // a part that `int()` refuses

  predicate IsDigit(c: char)
  {
    '0' <= c <= '9'
  }

  /** A non-empty string of ASCII decimal digits. */
  predicate IsDecimal(s: string)
  {
    |s| > 0 && forall i :: 0 <= i < |s| ==> IsDigit(s[i])
  }

  /** The value of a string of decimal digits, most significant digit first. */
  function DigitsValue(s: string): nat
    requires forall i :: 0 <= i < |s| ==> IsDigit(s[i])
  {
    if s == [] then 0
    else
      assert IsDigit(s[|s| - 1]);
      DigitsValue(s[..|s| - 1]) * 10 + (s[|s| - 1] as int - '0' as int)
  }

  /** Python's `int(part)`, restricted to plain decimal digit strings. */
  function ParseInt(part: string): (r: Result<nat, TimeError>)
    ensures r.Ok? <==> IsDecimal(part)
    ensures r.Err? ==> r.error == InvalidInteger(part)
  {
    if IsDecimal(part) then Ok(DigitsValue(part)) else Err(InvalidInteger(part))
  }

  /** `parts[k]` is the first part that is not a decimal integer. */
  predicate FirstBadPart(parts: seq<string>, k: int)
  {
    0 <= k < |parts| && !IsDecimal(parts[k]) && forall j :: 0 <= j < k ==> IsDecimal(parts[j])
  }

  /**
   The arithmetic of `parse_time_to_seconds` on the parts of the split: one
   part is seconds, two are minutes and seconds, three are hours, minutes and
   seconds. Parts are converted left to right, so the first part that is not an
   integer is the one reported.
   */
  function FromParts(parts: seq<string>): (r: Result<nat, TimeError>)
    requires 1 <= |parts| <= 3
    ensures r.Ok? <==> forall i :: 0 <= i < |parts| ==> IsDecimal(parts[i])
    ensures r.Err? ==> r.error.InvalidInteger? && r.error.part in parts
    ensures r.Err? ==> exists k :: FirstBadPart(parts, k) && r == Err(InvalidInteger(parts[k]))
  {
    match ParseInt(parts[0])
    case Err(e) => Err(e)
    case Ok(first) =>
      if |parts| == 1 then Ok(first)
      else
        match ParseInt(parts[1])
        case Err(e) => Err(e)
        case Ok(second) =>
          if |parts| == 2 then Ok(first * 60 + second)
          else
            match ParseInt(parts[2])
            case Err(e) => Err(e)
            case Ok(third) => Ok(first * 3600 + second * 60 + third)
  }

  /** `parse_time_to_seconds`: anything but one, two or three parts is a format error. */
  function ParseTimeToSeconds(text: string): (r: Result<nat, TimeError>)
    ensures |Split(text, ':')| > 3 <==> r == Err(InvalidTimeFormat(text))
    ensures r.Ok? <==>
      |Split(text, ':')| <= 3 && forall i :: 0 <= i < |Split(text, ':')| ==> IsDecimal(Split(text, ':')[i])
    ensures r.Err? && r.error.InvalidInteger? ==> r.error.part in Split(text, ':')
    ensures r.Err? && |Split(text, ':')| <= 3 ==> r.error.InvalidInteger?
    ensures r.Err? && r.error.InvalidInteger? ==>
      exists k :: FirstBadPart(Split(text, ':'), k) && r.error.part == Split(text, ':')[k]
  {
    var parts := Split(text, ':');
    if |parts| <= 3 then FromParts(parts) else Err(InvalidTimeFormat(text))
  }

  /** A string with three or more colons never parses: it is a format error. */
  lemma TooManyPartsFail(text: string)
    requires Occurrences(text, ':') >= 3
    ensures ParseTimeToSeconds(text) == Err(InvalidTimeFormat(text))
  {
    SplitShape(text, ':');
  }

  // ---------------------------------------------------------------------------
  // Decimal rendering, the inverse of `DigitsValue`
  // ---------------------------------------------------------------------------

  function DigitChar(d: nat): (c: char)
    requires d < 10
    ensures IsDigit(c)
  {
    ('0' as int + d) as char
  }

  /** The shortest decimal rendering of `n` (Python's `str(n)`). */
  function ShowNat(n: nat): (s: string)
    ensures IsDecimal(s)
  {
    if n < 10 then [DigitChar(n)] else ShowNat(n / 10) + [DigitChar(n % 10)]
  }

  /** Reading a rendered number gives the number back. */
  lemma {:induction false} ShowNatRoundTrip(n: nat)
    ensures DigitsValue(ShowNat(n)) == n
  {
    if n >= 10 {
      var s := ShowNat(n);
      assert s[..|s| - 1] == ShowNat(n / 10);
      ShowNatRoundTrip(n / 10);
    }
  }

  /** Leading zeros do not change the value of a part. */
  lemma {:induction false} LeadingZeroIgnored(s: string)
    requires forall i :: 0 <= i < |s| ==> IsDigit(s[i])
    ensures DigitsValue("0" + s) == DigitsValue(s)
  {
    if s != [] {
      var t := "0" + s;
      assert t[..|t| - 1] == "0" + s[..|s| - 1];
      LeadingZeroIgnored(s[..|s| - 1]);
    }
  }

  lemma DecimalHasNoColon(s: string)
    requires IsDecimal(s)
    ensures ':' !in s
  {
  }

  /** Three decimal parts joined by colons split back into those parts. */
  lemma SplitThree(a: string, b: string, c: string)
    requires IsDecimal(a) && IsDecimal(b) && IsDecimal(c)
    ensures Split(a + ":" + b + ":" + c, ':') == [a, b, c]
  {
    DecimalHasNoColon(a);
    DecimalHasNoColon(b);
    DecimalHasNoColon(c);
    assert a + ":" + b + ":" + c == a + [':'] + (b + [':'] + c);
    SplitAtFirst(a, ':', b + [':'] + c);
    SplitAtFirst(b, ':', c);
    SplitNoSeparator(c, ':');
  }

  /** Two decimal parts joined by a colon split back into those parts. */
  lemma SplitTwo(a: string, b: string)
    requires IsDecimal(a) && IsDecimal(b)
    ensures Split(a + ":" + b, ':') == [a, b]
  {
    DecimalHasNoColon(a);
    DecimalHasNoColon(b);
    SplitAtFirst(a, ':', b);
    SplitNoSeparator(b, ':');
  }

  /** `SS`: one decimal part is read as seconds. */
  lemma ParseSeconds(a: string)
    requires IsDecimal(a)
    ensures var r := ParseTimeToSeconds(a); r.Ok? && r.value == DigitsValue(a)
  {
    DecimalHasNoColon(a);
    SplitNoSeparator(a, ':');
  }

  /** `MM:SS`: minutes times 60 plus seconds; the seconds are not range-checked. */
  lemma ParseMinutes(a: string, b: string)
    requires IsDecimal(a) && IsDecimal(b)
    ensures var r := ParseTimeToSeconds(a + ":" + b);
      r.Ok? && r.value == DigitsValue(a) * 60 + DigitsValue(b)
  {
    ParseTwoParts(a, b, DigitsValue(a), DigitsValue(b));
  }

  lemma ParseTwoParts(a: string, b: string, x: nat, y: nat)
    requires ParseInt(a) == Ok(x) && ParseInt(b) == Ok(y)
    ensures ParseTimeToSeconds(a + ":" + b) == Ok(x * 60 + y)
  {
    SplitTwo(a, b);
    assert [a, b][0] == a && [a, b][1] == b;
  }

  /** `HH:MM:SS`: hours times 3600 plus minutes times 60 plus seconds, no range checks. */
  lemma ParseHours(a: string, b: string, c: string)
    requires IsDecimal(a) && IsDecimal(b) && IsDecimal(c)
    ensures var r := ParseTimeToSeconds(a + ":" + b + ":" + c);
      r.Ok? && r.value == DigitsValue(a) * 3600 + DigitsValue(b) * 60 + DigitsValue(c)
  {
    ParseThreeParts(a, b, c, DigitsValue(a), DigitsValue(b), DigitsValue(c));
  }

  lemma ParseThreeParts(a: string, b: string, c: string, x: nat, y: nat, z: nat)
    requires ParseInt(a) == Ok(x) && ParseInt(b) == Ok(y) && ParseInt(c) == Ok(z)
    ensures ParseTimeToSeconds(a + ":" + b + ":" + c) == Ok(x * 3600 + y * 60 + z)
  {
    SplitThree(a, b, c);
    assert [a, b, c][0] == a && [a, b, c][1] == b && [a, b, c][2] == c;
  }

  /** Rendering `h:m:s` with `ShowNat` and parsing it gives back the total seconds. */
  lemma HoursRoundTrip(hour: nat, min: nat, sec: nat)
    ensures ParseTimeToSeconds(ShowNat(hour) + ":" + ShowNat(min) + ":" + ShowNat(sec))
         == Ok(hour * 3600 + min * 60 + sec)
  {
    var h, m, s := ShowNat(hour), ShowNat(min), ShowNat(sec);
    assert ParseInt(h) == Ok(hour) by { ShowNatRoundTrip(hour); }
    assert ParseInt(m) == Ok(min) by { ShowNatRoundTrip(min); }
    assert ParseInt(s) == Ok(sec) by { ShowNatRoundTrip(sec); }
    ParseThreeParts(h, m, s, hour, min, sec);
  }

  /** The usage text's `0:30 2:15` and `30 135` name the same range: both start at 30 seconds. */
  lemma ExampleMinutesStart()
    ensures ParseTimeToSeconds("0:30") == Ok(30) && ParseTimeToSeconds("30") == Ok(30)
  {
    assert DigitsValue("0") == 0 && DigitsValue("3") == 3;
    assert DigitsValue("30") == 30 by { assert "30"[..1] == "3"; }
    ParseSeconds("30");
    ParseMinutes("0", "30");
    assert "0" + ":" + "30" == "0:30";
  }

  /** The usage text's `0:30 2:15` and `30 135` name the same range: both end at 135 seconds. */
  lemma ExampleMinutesEnd()
    ensures ParseTimeToSeconds("2:15") == Ok(135) && ParseTimeToSeconds("135") == Ok(135)
  {
    assert DigitsValue("1") == 1 && DigitsValue("2") == 2;
    assert DigitsValue("15") == 15 by { assert "15"[..1] == "1"; }
    assert DigitsValue("13") == 13 by { assert "13"[..1] == "1"; }
    assert DigitsValue("135") == 135 by { assert "135"[..2] == "13"; }
    ParseSeconds("135");
    ParseMinutes("2", "15");
    assert "2" + ":" + "15" == "2:15";
  }

  /** The start of the usage text's `1:30:45 1:33:20`: 5445 seconds. */
  lemma ExampleHoursStart()
    ensures ParseTimeToSeconds("1:30:45") == Ok(5445)
  {
    assert DigitsValue("1") == 1 && DigitsValue("3") == 3 && DigitsValue("4") == 4;
    assert DigitsValue("30") == 30 by { assert "30"[..1] == "3"; }
    assert DigitsValue("45") == 45 by { assert "45"[..1] == "4"; }
    assert "1" + ":" + "30" + ":" + "45" == "1:30:45";
    ParseHours("1", "30", "45");
  }

  /** The end of the usage text's `1:30:45 1:33:20`: 5600 seconds. */
  lemma ExampleHoursEnd()
    ensures ParseTimeToSeconds("1:33:20") == Ok(5600)
  {
    assert DigitsValue("1") == 1 && DigitsValue("2") == 2 && DigitsValue("3") == 3;
    assert DigitsValue("33") == 33 by { assert "33"[..1] == "3"; }
    assert DigitsValue("20") == 20 by { assert "20"[..1] == "2"; }
    assert "1" + ":" + "33" + ":" + "20" == "1:33:20";
    ParseHours("1", "33", "20");
  }

  /** With two bad parts, the error names the first, as `int(parts[0])` raises before `int(parts[1])` runs. */
  lemma ExampleFirstBadPart()
    ensures ParseTimeToSeconds("x:y") == Err(InvalidInteger("x"))
  {
    assert "x:y" == "x" + [':'] + "y";
    SplitAtFirst("x", ':', "y");
    SplitNoSeparator("y", ':');
    assert ["x", "y"][0] == "x";
    assert !IsDecimal("x");
  }

  /** Four parts are a format error; a part that is not a number is an integer error. */
  lemma ExampleErrors()
    ensures ParseTimeToSeconds("1:2:3:4") == Err(InvalidTimeFormat("1:2:3:4"))
    ensures ParseTimeToSeconds("1:x") == Err(InvalidInteger("x"))
    ensures ParseTimeToSeconds("") == Err(InvalidInteger(""))
  {
    assert "1:2:3:4" == "1" + [':'] + ("2" + [':'] + ("3" + [':'] + "4"));
    SplitAtFirst("1", ':', "2" + [':'] + ("3" + [':'] + "4"));
    SplitAtFirst("2", ':', "3" + [':'] + "4");
    SplitAtFirst("3", ':', "4");
    assert "1:x" == "1" + [':'] + "x";
    SplitAtFirst("1", ':', "x");
    SplitNoSeparator("x", ':');
    assert ["1", "x"][1] == "x";
    assert !IsDecimal("x");
  }
}
