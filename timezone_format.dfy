/**
 * `normalizeTimestampInput`: Tinybird writes UTC date-times without a zone
 * (`2026-02-27 12:54:36.123456`); before parsing, such text is rewritten as
 * ISO 8601 in UTC with at most millisecond precision
 * (`2026-02-27T12:54:36.123Z`). Other text is only trimmed.
 */
module TimezoneFormat {
  import opened Wrappers
  import opened JsText

  /** `\d{4}-\d{2}-\d{2}`. */
  predicate IsDatePart(d: string) {
    |d| == 10 && AllDigits(d[..4]) && d[4] == '-' && AllDigits(d[5..7]) && d[7] == '-' && AllDigits(d[8..])
  }

  /** `\d{2}:\d{2}:\d{2}`. */
  predicate IsTimePart(t: string) {
    |t| == 8 && AllDigits(t[..2]) && t[2] == ':' && AllDigits(t[3..5]) && t[5] == ':' && AllDigits(t[6..])
  }

  /** The capture groups of `TINYBIRD_UTC_PATTERN`: the date, the time and the optional fraction digits. */
  datatype TinybirdMatch = TinybirdMatch(date: string, time: string, fractional: Option<string>)

  /**
   * `^(\d{4}-\d{2}-\d{2})[ T](\d{2}:\d{2}:\d{2})(?:\.(\d+))?$`. The widths are
   * fixed, so the text matches exactly when its first 19 characters have the
   * shape and the rest is empty or a point followed by digits.
   */
  function MatchTinybird(s: string): (r: Option<TinybirdMatch>)
    ensures r.Some? ==> |s| >= 19 && s == r.value.date + [s[10]] + r.value.time + (if r.value.fractional.Some? then "." + r.value.fractional.value else "")
    ensures r.Some? ==> IsDatePart(r.value.date) && IsTimePart(r.value.time) && (s[10] == ' ' || s[10] == 'T')
    ensures r.Some? && r.value.fractional.Some? ==> |r.value.fractional.value| > 0 && AllDigits(r.value.fractional.value)
  {
    if |s| >= 19 && IsDatePart(s[..10]) && (s[10] == ' ' || s[10] == 'T') && IsTimePart(s[11..19]) then
      if |s| == 19 then
        assert s == s[..10] + [s[10]] + s[11..19];
        Some(TinybirdMatch(s[..10], s[11..19], None))
      else if |s| > 20 && s[19] == '.' && AllDigits(s[20..]) then
        assert s[..19] == s[..10] + [s[10]] + s[11..19];
        assert s[19..] == "." + s[20..];
        assert s == s[..19] + s[19..];
        Some(TinybirdMatch(s[..10], s[11..19], Some(s[20..])))
      else None
    else None
  }

  /** `` `${fractional}000`.slice(0, 3) ``. */
  function Milliseconds(fractional: string): (r: string)
    ensures |r| == 3
    ensures |fractional| >= 3 ==> r == fractional[..3]
    ensures |fractional| < 3 ==> r == fractional + "000"[..3 - |fractional|]
  {
    (fractional + "000")[..3]
  }

  function NormalizeTimestampInput(value: string): string {
    var trimmed := Trim(value);
    match MatchTinybird(trimmed)
    case None => trimmed
    case Some(m) =>
      if m.fractional.None? then m.date + "T" + m.time + "Z"
      else m.date + "T" + m.time + "." + Milliseconds(m.fractional.value) + "Z"
  }

  // ---------------------------------------------------------------------
  // Properties
  // ---------------------------------------------------------------------

  /** Text that does not have the Tinybird shape is returned trimmed and otherwise unchanged. */
  lemma OtherTextOnlyTrimmed(value: string)
    requires MatchTinybird(Trim(value)).None?
    ensures NormalizeTimestampInput(value) == Trim(value)
  {
  }

  lemma DatePartHasNoPoint(d: string)
    requires IsDatePart(d)
    ensures '.' !in d && 'Z' !in d
  {
    assert forall i :: 0 <= i < 4 ==> d[i] == d[..4][i];
    assert forall i :: 5 <= i < 7 ==> d[i] == d[5..7][i - 5];
    assert forall i :: 8 <= i < 10 ==> d[i] == d[8..][i - 8];
  }

  lemma TimePartHasNoPoint(t: string)
    requires IsTimePart(t)
    ensures '.' !in t && 'Z' !in t
  {
    assert forall i :: 0 <= i < 2 ==> t[i] == t[..2][i];
    assert forall i :: 3 <= i < 5 ==> t[i] == t[3..5][i - 3];
    assert forall i :: 6 <= i < 8 ==> t[i] == t[6..][i - 6];
  }

  /**
   * Whole seconds become `date + "T" + time + "Z"`, with no `.` at all; a
   * fraction becomes exactly three millisecond digits, the fraction padded
   * with zeros or cut.
   */
  lemma TinybirdTextRewritten(value: string)
    requires MatchTinybird(Trim(value)).Some?
    ensures var m := MatchTinybird(Trim(value)).value;
            var r := NormalizeTimestampInput(value);
            (m.fractional.None? ==> r == m.date + "T" + m.time + "Z" && '.' !in r) &&
            (m.fractional.Some? ==>
               exists ms :: r == m.date + "T" + m.time + "." + ms + "Z" && |ms| == 3 && AllDigits(ms) &&
                            (|m.fractional.value| >= 3 ==> ms == m.fractional.value[..3]) &&
                            (|m.fractional.value| < 3 ==> ms == m.fractional.value + "000"[..3 - |m.fractional.value|]))
  {
    var m := MatchTinybird(Trim(value)).value;
    DatePartHasNoPoint(m.date);
    TimePartHasNoPoint(m.time);
    if m.fractional.Some? {
      var f := m.fractional.value;
      var ms := Milliseconds(f);
      assert AllDigits(ms) by {
        forall i | 0 <= i < 3 ensures IsDigit(ms[i]) {
          assert ms[i] == (f + "000")[i];
        }
      }
    } else {
      var r := m.date + "T" + m.time + "Z";
      assert forall i :: 0 <= i < |r| ==> r[i] != '.' by {
        forall i | 0 <= i < |r| ensures r[i] != '.' {
          if i < 10 { assert r[i] == m.date[i]; }
          else if 11 <= i < 19 { assert r[i] == m.time[i - 11]; }
        }
      }
    }
  }

  /** The rewritten text ends in `Z`, which the pattern never accepts at the end. */
  lemma EndingInZNeverMatches(s: string)
    requires |s| > 0 && s[|s| - 1] == 'Z'
    ensures MatchTinybird(s).None?
  {
    if |s| >= 19 && IsDatePart(s[..10]) && (s[10] == ' ' || s[10] == 'T') && IsTimePart(s[11..19]) {
      if |s| == 19 {
        assert s[18] == s[11..19][7];
      } else if |s| > 20 && s[19] == '.' && AllDigits(s[20..]) {
        assert s[|s| - 1] == s[20..][|s| - 21];
      }
    }
  }

  /** Normalising twice is normalising once. */
  lemma NormalizeIdempotent(value: string)
    ensures NormalizeTimestampInput(NormalizeTimestampInput(value)) == NormalizeTimestampInput(value)
  {
    var trimmed := Trim(value);
    TrimIsTrimmed(value);
    TrimmedIsFixed(trimmed);
    var r := NormalizeTimestampInput(value);
    match MatchTinybird(trimmed)
    case None =>
      assert r == trimmed;
    case Some(m) =>
      assert r[|r| - 1] == 'Z';
      assert IsDigit(m.date[0]);
      assert r[0] == m.date[0];
      assert IsTrimmed(r);
      TrimmedIsFixed(r);
      EndingInZNeverMatches(r);
  }

  /**
   * Tinybird's text with a space and microseconds, `2026-02-27 12:54:36.123456`,
   * becomes `2026-02-27T12:54:36.123Z`: the first three fraction digits, in UTC.
   */
  lemma FractionCutToMilliseconds(date: string, time: string, fractional: string)
    requires IsDatePart(date) && IsTimePart(time) && |fractional| >= 3 && AllDigits(fractional)
    ensures NormalizeTimestampInput(date + " " + time + "." + fractional) == date + "T" + time + "." + fractional[..3] + "Z"
  {
    var s := date + " " + time + "." + fractional;
    assert s[0] == date[0] && IsDigit(date[..4][0]);
    assert s[|s| - 1] == fractional[|fractional| - 1];
    TrimmedIsFixed(s);
    assert s[..10] == date && s[11..19] == time && s[20..] == fractional;
    assert MatchTinybird(s) == Some(TinybirdMatch(date, time, Some(fractional)));
  }
}
