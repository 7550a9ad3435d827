/**
 * `getTodayString`: the local calendar date as `${year}-${month}-${day}`,
 * the month (one-based) and the day padded to two digits and the year
 * written as `String(year)` without padding. Reading the clock is not part
 * of the model: the date fields are parameters, with the month given as
 * JavaScript's zero-based `getMonth()`.
 */
module Calendar {
  import opened Text

  /**
   * For a month index below 12 and a day below 100 the string is the year's
   * digits, a dash, two digits denoting `monthIndex + 1`, a dash and two
   * digits denoting the day.
   */
  function DateString(year: nat, monthIndex: nat, day: nat): (s: string)
    ensures monthIndex < 12 && day < 100 ==>
      var k := |NatToString(year)|;
      && |s| == k + 6 && s[k] == '-' && s[k + 3] == '-'
      && AllDigits(s[..k]) && DigitsValue(s[..k]) == year
      && AllDigits(s[k + 1..k + 3]) && DigitsValue(s[k + 1..k + 3]) == monthIndex + 1
      && AllDigits(s[k + 4..]) && DigitsValue(s[k + 4..]) == day
  {
    var ys, ms, ds := NatToString(year), Pad2(monthIndex + 1), Pad2(day);
    if monthIndex < 12 && day < 100 then
      assert AllDigits(ms) && DigitsValue(ms) == monthIndex + 1;
      assert AllDigits(ds) && DigitsValue(ds) == day;
      JoinedFields(ys, ms, ds);
      ys + "-" + ms + "-" + ds
    else
      ys + "-" + ms + "-" + ds
  }

  /** Three fields joined by dashes, the last two two characters wide, split back at fixed offsets from the first dash */
  lemma JoinedFields(ys: string, ms: string, ds: string)
    requires |ms| == 2 && |ds| == 2
    ensures var s, k := ys + "-" + ms + "-" + ds, |ys|;
      && |s| == k + 6 && s[k] == '-' && s[k + 3] == '-'
      && s[..k] == ys && s[k + 1..k + 3] == ms && s[k + 4..] == ds
  {
  }

  /**
   * Different calendar dates give different strings, so the `date ===`
   * comparisons of the booking rules identify a single day.
   */
  lemma DateStringInjective(y1: nat, m1: nat, d1: nat, y2: nat, m2: nat, d2: nat)
    requires m1 < 12 && m2 < 12 && 1 <= d1 <= 31 && 1 <= d2 <= 31
    requires DateString(y1, m1, d1) == DateString(y2, m2, d2)
    ensures y1 == y2 && m1 == m2 && d1 == d2
  {
    assert |NatToString(y1)| == |NatToString(y2)|;
  }

  /**
   * With a four-digit year the string has the `YYYY-MM-DD` shape: four
   * digits denoting the year, two denoting `getMonth() + 1` and two denoting
   * the day, separated by dashes at 4 and 7.
   */
  lemma DateStringShape(year: nat, monthIndex: nat, day: nat)
    requires 1000 <= year <= 9999 && monthIndex < 12 && 1 <= day <= 31
    ensures var s := DateString(year, monthIndex, day);
      && |s| == 10 && s[4] == '-' && s[7] == '-'
      && AllDigits(s[..4]) && DigitsValue(s[..4]) == year
      && AllDigits(s[5..7]) && DigitsValue(s[5..7]) == monthIndex + 1
      && AllDigits(s[8..]) && DigitsValue(s[8..]) == day
  {
    FourDigitYear(year);
  }

  /** `String(year)` of a year from 1000 to 9999 has four digits */
  lemma FourDigitYear(year: nat)
    requires 1000 <= year <= 9999
    ensures |NatToString(year)| == 4
  {
    assert |NatToString(year / 1000)| == 1;
    assert |NatToString(year / 100)| == 2 by {
      assert year / 100 / 10 == year / 1000;
    }
    assert |NatToString(year / 10)| == 3 by {
      assert year / 10 / 10 == year / 100;
    }
  }

  /** The fifth of January 2024 (`getMonth()` 0) is written "2024-01-05" */
  lemma DateStringExample()
    ensures DateString(2024, 0, 5) == "2024-01-05"
  {
    YearText();
    FieldTexts();
    assert DateString(2024, 0, 5) == NatToString(2024) + "-" + Pad2(1) + "-" + Pad2(5);
  }

  /** `String(2024)` is "2024" */
  lemma YearText()
    ensures NatToString(2024) == "2024"
  {
    assert NatToString(2) == "2";
    assert NatToString(20) == NatToString(2) + "0";
    assert NatToString(202) == NatToString(20) + "2";
    assert NatToString(2024) == NatToString(202) + "4";
  }

  /** Month 1 and day 5 are written "01" and "05" */
  lemma FieldTexts()
    ensures Pad2(1) == "01" && Pad2(5) == "05"
  {
    assert NatToString(1) == "1" && NatToString(5) == "5";
    assert Repeat('0', 1) == "0";
  }
}
