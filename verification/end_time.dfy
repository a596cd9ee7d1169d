/** `adjust_end_time`: a GTFS departure time such as "25:10:00", which may
    run past midnight, shown as the clock time "01:10". */
module EndTime {
  import opened Results
  import opened Text
  import opened Tables

  /** Lines 247-255. The hour field is parsed first and the minute field
      second; an hour of 24 or more loses 24 once; the seconds and anything
      after them are ignored. */
  function AdjustEndTime(endTime: string): (r: Result<string>)
    ensures r.Ok? <==> && IsNumeral(Split(endTime, ':')[0])
                       && |Split(endTime, ':')| >= 2
                       && IsNumeral(Split(endTime, ':')[1])
    ensures !IsNumeral(Split(endTime, ':')[0]) ==> r == Err(NotANumber(Split(endTime, ':')[0]))
    ensures IsNumeral(Split(endTime, ':')[0]) && |Split(endTime, ':')| < 2 ==> r == Err(MissingField(endTime, 1))
    ensures IsNumeral(Split(endTime, ':')[0]) && |Split(endTime, ':')| >= 2 && !IsNumeral(Split(endTime, ':')[1]) ==>
              r == Err(NotANumber(Split(endTime, ':')[1]))
  {
    var hours :- ParseNatOrFail(Split(endTime, ':')[0]);
    var minuteText :- Field(endTime, ':', 1);
    var minutes :- ParseNatOrFail(minuteText);
    Ok(ClockTime(if hours >= 24 then hours - 24 else hours, minutes))
  }

  /** `f"{hours:02}:{minutes:02}"`. */
  function ClockTime(hours: nat, minutes: nat): (s: string)
    ensures Split(s, ':') == [Pad2(hours), Pad2(minutes)]
  {
    var s := Pad2(hours) + ":" + Pad2(minutes);
    ClockTimeFields(hours, minutes);
    s
  }

  /** Neither padded number holds a colon, so the colon splits them apart. */
  lemma ClockTimeFields(hours: nat, minutes: nat)
    ensures Split(Pad2(hours) + ":" + Pad2(minutes), ':') == [Pad2(hours), Pad2(minutes)]
  {
    NoColon(hours);
    NoColon(minutes);
    SplitCons(Pad2(hours), ':', Pad2(minutes));
    SplitSingle(Pad2(minutes), ':');
  }

  lemma NoColon(n: nat)
    ensures ':' !in Pad2(n)
  {
    var s := Pad2(n);
    forall i | 0 <= i < |s| ensures s[i] != ':' {
      assert IsDigit(s[i]);
    }
  }

  /** The result reads back as the hour less 24 when it was 24 or more and
      as the minute unchanged, each written with at least two digits. */
  lemma AdjustEndTimeReadsBack(endTime: string)
    requires AdjustEndTime(endTime).Ok?
    ensures |Split(AdjustEndTime(endTime).value, ':')| == 2
    ensures ParseNat(Split(AdjustEndTime(endTime).value, ':')[0]) ==
              Some(var h := NumericKey(Split(endTime, ':')[0]); if h >= 24 then h - 24 else h)
    ensures ParseNat(Split(AdjustEndTime(endTime).value, ':')[1]) == Some(NumericKey(Split(endTime, ':')[1]))
    ensures NumericKey(Split(endTime, ':')[0]) < 124 ==> |Split(AdjustEndTime(endTime).value, ':')[0]| == 2
    ensures NumericKey(Split(endTime, ':')[1]) < 100 ==> |Split(AdjustEndTime(endTime).value, ':')[1]| == 2
  {
  }

  /** The seconds do not matter: any field after the minute is dropped. */
  lemma SecondsDropped(hours: string, minutes: string, rest: string)
    requires ':' !in hours && ':' !in minutes
    ensures AdjustEndTime(hours + ":" + minutes + ":" + rest) == AdjustEndTime(hours + ":" + minutes)
  {
    SplitCons(hours, ':', minutes + ":" + rest);
    SplitCons(minutes, ':', rest);
    assert hours + ":" + minutes + ":" + rest == hours + [':'] + (minutes + [':'] + rest);
    SplitCons(hours, ':', minutes);
    SplitSingle(minutes, ':');
  }

  /** An hour below 48 comes out below 24, which a second adjustment keeps:
      applying the function to its own result changes nothing. */
  lemma AdjustEndTimeIdempotent(endTime: string)
    requires AdjustEndTime(endTime).Ok?
    requires NumericKey(Split(endTime, ':')[0]) < 48
    ensures AdjustEndTime(AdjustEndTime(endTime).value) == AdjustEndTime(endTime)
  {
    var h := NumericKey(Split(endTime, ':')[0]);
    var m := NumericKey(Split(endTime, ':')[1]);
    var h' := if h >= 24 then h - 24 else h;
    assert AdjustEndTime(endTime).value == ClockTime(h', m);
  }

  /** An "HH:MM" string with two numeric fields is adjusted field by field. */
  lemma AdjustTwoFields(hours: string, minutes: string)
    requires ':' !in hours && ':' !in minutes && IsNumeral(hours) && IsNumeral(minutes)
    ensures AdjustEndTime(hours + ":" + minutes) ==
              Ok(ClockTime(if NumericKey(hours) >= 24 then NumericKey(hours) - 24 else NumericKey(hours), NumericKey(minutes)))
  {
    SplitCons(hours, ':', minutes);
    SplitSingle(minutes, ':');
  }

  /** From hour 48 up the single subtraction leaves an hour of 24 or more:
      "48:00:00" becomes "24:00", and adjusting that again gives "00:00". */
  lemma HourFortyEight()
    ensures AdjustEndTime("48:00:00") == Ok("24:00")
    ensures AdjustEndTime("24:00") == Ok("00:00")
  {
    SecondsDropped("48", "00", "00");
    assert "48" + ":" + "00" + ":" + "00" == "48:00:00";
    assert "48" + ":" + "00" == "48:00";
    assert "24" + ":" + "00" == "24:00";
    Digits();
    AdjustTwoFields("48", "00");
    AdjustTwoFields("24", "00");
    Clocks();
  }

  lemma Digits()
    ensures ParseNat("48") == Some(48) && ParseNat("24") == Some(24) && ParseNat("00") == Some(0)
  {
    assert DigitsValue("48") == 10 * DigitsValue("4") + 8;
    assert DigitsValue("4") == 10 * DigitsValue("") + 4;
    assert DigitsValue("24") == 10 * DigitsValue("2") + 4;
    assert DigitsValue("2") == 10 * DigitsValue("") + 2;
    assert DigitsValue("00") == 10 * DigitsValue("0") + 0;
    assert DigitsValue("0") == 10 * DigitsValue("") + 0;
  }

  lemma Clocks()
    ensures ClockTime(24, 0) == "24:00" && ClockTime(0, 0) == "00:00"
  {
    assert Decimal(24) == Decimal(2) + [DigitChar(4)];
  }
}
