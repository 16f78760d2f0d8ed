/** Reading a NWS `validTime` such as `2024-01-15T06:00:00+00:00/PT3H`:
    the start instant before the "/P" and the number of whole hours the
    duration after it covers (`nws_datetime_str_to_datetime_with_duration`). */
module ValidTime {
  import opened Results
  import opened Text
  import opened Calendar

  /** `re.match(r"[0-9]+D", d)`, giving the number before the `D`. The match
      is anchored at the start of `d`: it succeeds exactly when some nonempty
      run of digits at the start is followed by `D`, and then the number is
      that run's value. */
  function DayMatch(d: string): (r: Option<nat>)
    ensures r.Some? <==> exists k :: 1 <= k < |d| && AllDigits(d[..k]) && d[k] == 'D'
    ensures forall k :: 1 <= k < |d| && AllDigits(d[..k]) && d[k] == 'D' ==> r == Some(DecimalValue(d[..k]))
  {
    LeadingDigitsUniqueAll(d);
    var k := LeadingDigits(d);
    if 1 <= k < |d| && d[k] == 'D' then Some(DecimalValue(d[..k])) else None
  }

  /** `re.match(r"T[0-9]+H", d)`, giving the number between `T` and `H`.
      Also anchored at the start: `d` must begin with `T`. */
  function HourMatch(d: string): (r: Option<nat>)
    ensures r.Some? <==> exists k :: 2 <= k < |d| && d[0] == 'T' && AllDigits(d[1..k]) && d[k] == 'H'
    ensures forall k :: 2 <= k < |d| && d[0] == 'T' && AllDigits(d[1..k]) && d[k] == 'H' ==> r == Some(DecimalValue(d[1..k]))
  {
    if |d| == 0 || d[0] != 'T' then None
    else
      var rest := d[1..];
      LeadingDigitsUniqueAll(rest);
      assert forall k :: 2 <= k < |d| ==> d[1..k] == rest[..k - 1] && d[k] == rest[k - 1];
      var k := LeadingDigits(rest);
      if 1 <= k < |rest| && rest[k] == 'H' then Some(DecimalValue(rest[..k])) else None
  }

  /** Hours covered by the duration text after "/P": 24 per day matched, plus
      the hours matched; zero when neither pattern matches. */
  function DurationHours(d: string): nat {
    (match DayMatch(d) case Some(n) => 24 * n case None => 0)
    + (match HourMatch(d) case Some(m) => m case None => 0)
  }

  /** `<n>D` followed by anything gives 24·n hours. In particular `<n>DT<m>H`
      gives 24·n: the hour pattern only matches at the very start, where a
      digit stands instead of `T`. */
  lemma DurationOfDays(n: nat, rest: string)
    ensures DurationHours(Numeral(n) + "D" + rest) == 24 * n
  {
    var d := Numeral(n) + "D" + rest;
    var k := |Numeral(n)|;
    assert d[..k] == Numeral(n) && d[k] == 'D';
    assert DayMatch(d) == Some(n);
    assert IsDigit(d[0]);
  }

  /** `T<m>H` followed by anything gives m hours. */
  lemma DurationOfHours(m: nat, rest: string)
    ensures DurationHours("T" + Numeral(m) + "H" + rest) == m
  {
    var d := "T" + Numeral(m) + "H" + rest;
    var k := 1 + |Numeral(m)|;
    assert d[1..k] == Numeral(m) && d[k] == 'H';
    assert HourMatch(d) == Some(m);
    assert !IsDigit(d[0]);
  }

  lemma DurationOfDaysAndHours(n: nat, m: nat)
    ensures DurationHours(Numeral(n) + "DT" + Numeral(m) + "H") == 24 * n
  {
    assert Numeral(n) + "DT" + Numeral(m) + "H" == Numeral(n) + "D" + ("T" + Numeral(m) + "H");
    DurationOfDays(n, "T" + Numeral(m) + "H");
  }

  /** Text that starts with neither a digit nor `T` matches neither pattern. */
  lemma DurationOfNeither(d: string)
    requires |d| == 0 || (!IsDigit(d[0]) && d[0] != 'T')
    ensures DurationHours(d) == 0
  {
    if |d| > 0 {
      assert forall k :: 1 <= k < |d| ==> !AllDigits(d[..k]) by {
        forall k | 1 <= k < |d| ensures !AllDigits(d[..k]) {
          assert d[..k][0] == d[0];
        }
      }
    }
  }

  lemma DurationExamples()
    ensures DurationHours("1D") == 24
    ensures DurationHours("T6H") == 6
    ensures DurationHours("1DT6H") == 24
    ensures DurationHours("") == 0
  {
    DurationOfDays(1, "");
    assert Numeral(1) + "D" + "" == "1D";
    DurationOfHours(6, "");
    assert "T" + Numeral(6) + "H" + "" == "T6H";
    DurationOfDaysAndHours(1, 6);
    assert Numeral(1) + "DT" + Numeral(6) + "H" == "1DT6H";
    DurationOfNeither("");
  }

  /** `nws_datetime_str_to_datetime_with_duration`: the start instant and the
      duration in hours; `None` where Python raises `ValueError`. It succeeds
      only when the text holds exactly one "/P", and then the start is read
      from the text before it and the duration from the text after it. */
  function ParseValidTime(s: string): (r: Option<(int, nat)>)
    ensures r.Some? ==>
      (exists i :: && SeparatorAt(s, i)
                   && !HasSeparator(s[..i]) && !HasSeparator(s[i + 2..])
                   && ParseInstant(s[..i]) == Some(r.value.0)
                   && r.value.1 == DurationHours(s[i + 2..]))
  {
    var parts := Split(s);
    if |parts| != 2 then None
    else
      match ParseInstant(parts[0])
      case None => None
      case Some(t) =>
        JoinSplit(s);
        SplitPiecesAreClean(s);
        var i := |parts[0]|;
        assert s == parts[0] + "/P" + parts[1];
        assert s[..i] == parts[0] && s[i + 2..] == parts[1];
        assert SeparatorAt(s, i);
        Some((t, DurationHours(parts[1])))
  }

  /** Text without "/P" before and after one "/P" splits into those two
      parts, and the parse reads the start from the first and the duration
      from the second. */
  lemma ParseValidTimeOfParts(x: string, duration: string)
    requires !HasSeparator(x) && !HasSeparator(duration)
    ensures ParseValidTime(x + "/P" + duration) ==
      match ParseInstant(x)
      case None => None
      case Some(t) => Some((t, DurationHours(duration)))
  {
    SplitAfterClean(x, duration);
    SplitClean(duration);
    assert Split(x + "/P" + duration) == [x, duration];
  }

  /** A formatted date-time followed by an offset without any `/` holds no
      "/P". */
  lemma FormattedHasNoSeparator(d: DateTime, zone: string)
    requires Valid(d)
    requires forall j :: 0 <= j < |zone| ==> zone[j] != '/'
    ensures !HasSeparator(FormatDateTime(d) + zone)
  {
    var x := FormatDateTime(d) + zone;
    FieldsOfFormat(d);
    CanonicalHasNoSlash(FormatDateTime(d));
    assert forall j :: 0 <= j < |x| ==> x[j] != '/';
  }

  /** A start written by `FormatDateTime`, followed by an offset without any
      `/`, then "/P" and a duration text without "/P", reads back as that
      start and that duration. */
  lemma ParseValidTimeOfFormatted(d: DateTime, zone: string, duration: string)
    requires Valid(d)
    requires forall j :: 0 <= j < |zone| ==> zone[j] != '/'
    requires !HasSeparator(duration)
    ensures ParseValidTime(FormatDateTime(d) + zone + "/P" + duration) == Some((Instant(d), DurationHours(duration)))
  {
    FormattedHasNoSeparator(d, zone);
    ParseValidTimeOfParts(FormatDateTime(d) + zone, duration);
    ParseFormatted(d, zone);
  }
}
