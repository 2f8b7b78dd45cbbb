/** `ConfigItem`: one configuration entry as the service sends and receives
    it, and its derived `LastUpdated` timestamp, parsed from the raw
    `updated` string in the fixed form `yyyy-MM-dd'T'HH:mm:ss'Z'` and read
    as UTC, with `DateTime.MinValue` standing for "no usable timestamp". */
module ConfigItems {
  import opened Wrappers
  import opened Runtime
  import opened DateTimes

  /** The record's fields; string fields are nullable references. */
  datatype ConfigItem = ConfigItem(
    id: int,
    application: Str,
    machine: Str,
    name: Str,
    value: Str,
    lastUpdatedRaw: Str)

  /** A `new ConfigItem()` with every field at its default. */
  const EmptyItem: ConfigItem := ConfigItem(0, None, None, None, None, None)

  predicate IsDigit(c: char) {
    '0' <= c <= '9'
  }

  /** The two decimal digits at `s[i]` and `s[i + 1]`. */
  predicate Digits2(s: string, i: nat) {
    i + 2 <= |s| && IsDigit(s[i]) && IsDigit(s[i + 1])
  }

  function DigitValue(c: char): (n: nat)
    requires IsDigit(c)
    ensures n < 10
  {
    c as int - '0' as int
  }

  function Number2(s: string, i: nat): (n: nat)
    requires Digits2(s, i)
    ensures n < 100
  {
    DigitValue(s[i]) * 10 + DigitValue(s[i + 1])
  }

  function Number4(s: string, i: nat): (n: nat)
    requires Digits2(s, i) && Digits2(s, i + 2)
    ensures n < 10000
  {
    Number2(s, i) * 100 + Number2(s, i + 2)
  }

  /** `s` has the layout `dddd-dd-ddTdd:dd:ddZ`: exactly twenty characters,
      ASCII digits in the numeric fields and the literal separators between
      them. */
  predicate WellShaped(s: string) {
    && |s| == 20
    && Digits2(s, 0) && Digits2(s, 2) && s[4] == '-'
    && Digits2(s, 5) && s[7] == '-'
    && Digits2(s, 8) && s[10] == 'T'
    && Digits2(s, 11) && s[13] == ':'
    && Digits2(s, 14) && s[16] == ':'
    && Digits2(s, 17) && s[19] == 'Z'
  }

  /** The numeric fields of a well-shaped string, read as a UTC time. */
  function Fields(s: string): DateTime
    requires WellShaped(s)
  {
    DateTime(Number4(s, 0), Number2(s, 5), Number2(s, 8),
             Number2(s, 11), Number2(s, 14), Number2(s, 17), Utc)
  }

  /** `DateTime.ParseExact(s, "yyyy-MM-dd'T'HH:mm:ss'Z'", InvariantCulture,
      AssumeUniversal | AdjustToUniversal)` on a non-null string: `None` where
      it throws `FormatException`. */
  function ParseExact(s: string): (r: Option<DateTime>)
    ensures r.Some? ==> Valid(r.value) && r.value.kind == Utc
  {
    if WellShaped(s) && Valid(Fields(s)) then Some(Fields(s)) else None
  }

  /** The `LastUpdated` getter: the parsed timestamp, or `MinValue` when the
      raw value is null or the parse throws. */
  function LastUpdatedOf(raw: Str): (r: DateTime)
    ensures Valid(r)
    ensures raw.None? ==> r == MinValue
    ensures r == MinValue || r.kind == Utc
  {
    match raw
    case None => MinValue
    case Some(s) => ParseExact(s).GetOr(MinValue)
  }

  /** `item.LastUpdated`: a function of `LastUpdatedRaw` alone. */
  function LastUpdated(item: ConfigItem): (r: DateTime)
    ensures Valid(r) && (r == MinValue || r.kind == Utc)
    ensures item.lastUpdatedRaw.None? ==> r == MinValue
  {
    LastUpdatedOf(item.lastUpdatedRaw)
  }

  /** Items that agree on `LastUpdatedRaw` agree on `LastUpdated`, whatever
      their other fields hold. */
  lemma LastUpdatedDependsOnlyOnRaw(item: ConfigItem, other: ConfigItem)
    requires item.lastUpdatedRaw == other.lastUpdatedRaw
    ensures LastUpdated(item) == LastUpdated(other)
  {
  }

  // ---- Formatting: the inverse of the parser ----

  function Digit(n: nat): (c: char)
    requires n < 10
    ensures IsDigit(c) && DigitValue(c) == n
  {
    ('0' as int + n) as char
  }

  /** `dt.ToString("yyyy-MM-dd'T'HH:mm:ss'Z'")`: each field zero-padded to
      its width, between the literal separators. */
  function Format(dt: DateTime): (s: string)
    requires Valid(dt)
    ensures |s| == 20
  {
    var century, y := dt.year / 100, dt.year % 100;
    [Digit(century / 10), Digit(century % 10), Digit(y / 10), Digit(y % 10), '-',
     Digit(dt.month / 10), Digit(dt.month % 10), '-',
     Digit(dt.day / 10), Digit(dt.day % 10), 'T',
     Digit(dt.hour / 10), Digit(dt.hour % 10), ':',
     Digit(dt.minute / 10), Digit(dt.minute % 10), ':',
     Digit(dt.second / 10), Digit(dt.second % 10), 'Z']
  }

  /** Two characters written as the digits of `n` read back as `n`. */
  lemma Number2OfDigits(s: string, i: nat, n: nat)
    requires n < 100 && i + 2 <= |s|
    requires s[i] == Digit(n / 10) && s[i + 1] == Digit(n % 10)
    ensures Digits2(s, i) && Number2(s, i) == n
  {
  }

  /** Two digits read as `n` are the characters `Digit` writes for `n`. */
  lemma DigitsOfNumber2(s: string, i: nat)
    requires Digits2(s, i)
    ensures Digit(Number2(s, i) / 10) == s[i] && Digit(Number2(s, i) % 10) == s[i + 1]
  {
    var n := Number2(s, i);
    assert n / 10 == DigitValue(s[i]) && n % 10 == DigitValue(s[i + 1]);
  }

  /** Every valid UTC time survives formatting and parsing. */
  lemma ParseExactFormat(dt: DateTime)
    requires Valid(dt) && dt.kind == Utc
    ensures ParseExact(Format(dt)) == Some(dt)
  {
    var s := Format(dt);
    Number2OfDigits(s, 0, dt.year / 100);
    Number2OfDigits(s, 2, dt.year % 100);
    Number2OfDigits(s, 5, dt.month);
    Number2OfDigits(s, 8, dt.day);
    Number2OfDigits(s, 11, dt.hour);
    Number2OfDigits(s, 14, dt.minute);
    Number2OfDigits(s, 17, dt.second);
    assert WellShaped(s);
    assert Fields(s) == dt;
  }

  /** The parser accepts only canonical strings: whatever it accepts is the
      formatting of its own result. */
  lemma FormatParseExact(s: string)
    requires ParseExact(s).Some?
    ensures Format(ParseExact(s).value) == s
  {
    var dt := ParseExact(s).value;
    assert dt.year / 100 == Number2(s, 0) && dt.year % 100 == Number2(s, 2);
    DigitsOfNumber2(s, 0);
    DigitsOfNumber2(s, 2);
    DigitsOfNumber2(s, 5);
    DigitsOfNumber2(s, 8);
    DigitsOfNumber2(s, 11);
    DigitsOfNumber2(s, 14);
    DigitsOfNumber2(s, 17);
    var f := Format(dt);
    assert forall k | 0 <= k < 20 :: f[k] == s[k];
  }

  /** A raw value that is the canonical form of a valid UTC time yields that
      time. */
  lemma LastUpdatedOfCanonical(dt: DateTime)
    requires Valid(dt) && dt.kind == Utc
    ensures LastUpdatedOf(Some(Format(dt))) == dt
  {
    ParseExactFormat(dt);
  }

  /** Anything else yields the sentinel: the result is `MinValue` unless the
      raw value is the canonical form of the (valid, UTC) result. */
  lemma LastUpdatedCanonicalOrMinValue(raw: Str)
    ensures var r := LastUpdatedOf(raw);
      r == MinValue <==> !(raw.Some? && ParseExact(raw.value).Some?)
    ensures var r := LastUpdatedOf(raw);
      r != MinValue ==> r.kind == Utc && raw == Some(Format(r))
  {
    if raw.Some? && ParseExact(raw.value).Some? {
      FormatParseExact(raw.value);
    }
  }

  /** The shapes the format rejects: a null value, a length other than
      twenty (fractional seconds, a missing `Z`, an offset), a wrong
      separator or a non-digit in a numeric field. */
  lemma MalformedIsMinValue(raw: Str)
    requires raw.None? || !WellShaped(raw.value)
    ensures LastUpdatedOf(raw) == MinValue
  {
  }

  /** Well-shaped strings whose fields name no real date or time (month 00
      or 13, a day past the end of its month, hour 24 or more, minute or
      second 60 or more, year 0000) yield the sentinel. */
  lemma OutOfRangeIsMinValue(s: string)
    requires WellShaped(s) && !Valid(Fields(s))
    ensures LastUpdatedOf(Some(s)) == MinValue
  {
  }

  /** The earliest instant `DateTime` can hold, as a parsed (UTC) value. */
  const Epoch: DateTime := DateTime(1, 1, 1, 0, 0, 0, Utc)

  lemma FormatEpoch()
    ensures Valid(Epoch) && Format(Epoch) == "0001-01-01T00:00:00Z"
  {
    assert Digit(0) == '0' && Digit(1) == '1';
  }

  /** Every result is at or after `MinValue`; it is the same instant as
      `MinValue` only when it is the sentinel itself or when the raw value was
      the real timestamp `0001-01-01T00:00:00Z`. */
  lemma LastUpdatedNotBeforeMinValue(raw: Str)
    ensures Ticks(LastUpdatedOf(raw)) >= Ticks(MinValue)
    ensures SameInstant(LastUpdatedOf(raw), MinValue)
      <==> LastUpdatedOf(raw) == MinValue || raw == Some("0001-01-01T00:00:00Z")
  {
    var r := LastUpdatedOf(raw);
    TicksAtLeastMinValue(r);
    FormatEpoch();
    if r != MinValue {
      LastUpdatedCanonicalOrMinValue(raw);
      if Ticks(r) == 0 {
        assert r == Epoch;
      }
      if raw == Some(Format(Epoch)) {
        LastUpdatedOfCanonical(Epoch);
      }
    }
  }

  /** The earliest real timestamp is indistinguishable from the sentinel:
      it parses, yet compares equal to `MinValue`. */
  lemma SentinelCollision()
    ensures ParseExact("0001-01-01T00:00:00Z") == Some(Epoch)
    ensures SameInstant(LastUpdatedOf(Some("0001-01-01T00:00:00Z")), MinValue)
  {
    FormatEpoch();
    ParseExactFormat(Epoch);
    LastUpdatedNotBeforeMinValue(Some(Format(Epoch)));
  }

  /** The timestamp with failure kept apart from every real instant: `None`
      exactly where `LastUpdated` falls back to the sentinel. */
  function TryLastUpdated(raw: Str): (r: Option<DateTime>)
    ensures r.Some? <==> raw.Some? && ParseExact(raw.value).Some?
    ensures r.Some? ==> Valid(r.value) && raw == Some(Format(r.value))
    ensures r.None? ==> LastUpdatedOf(raw) == MinValue
    ensures r.Some? ==> LastUpdatedOf(raw) == r.value
  {
    match raw
    case None => None
    case Some(s) =>
      var p := ParseExact(s);
      if p.Some? then FormatParseExact(s); p else None
  }

  /** With the optional result the earliest real timestamp is told apart from
      a failed parse. */
  lemma TryLastUpdatedSeparatesMinValue()
    ensures TryLastUpdated(Some("0001-01-01T00:00:00Z")).Some?
    ensures TryLastUpdated(Some("not a timestamp")) == None
  {
    assert WellShaped("0001-01-01T00:00:00Z");
  }

  /** Worked cases of the format: a leap day, a non-leap 29 February,
      fractional seconds and a missing `Z`. */
  lemma LastUpdatedExamples()
    ensures LastUpdatedOf(Some("2021-05-01T12:00:00Z")) == DateTime(2021, 5, 1, 12, 0, 0, Utc)
    ensures LastUpdatedOf(Some("2020-02-29T23:59:59Z")) == DateTime(2020, 2, 29, 23, 59, 59, Utc)
    ensures LastUpdatedOf(Some("2021-02-29T00:00:00Z")) == MinValue
    ensures LastUpdatedOf(Some("2021-05-01T12:00:00.12Z")) == MinValue
    ensures LastUpdatedOf(Some("2021-05-01T12:00:00")) == MinValue
    ensures LastUpdatedOf(Some("")) == MinValue
  {
    assert WellShaped("2021-05-01T12:00:00Z");
    assert WellShaped("2020-02-29T23:59:59Z");
    assert WellShaped("2021-02-29T00:00:00Z");
  }
}
