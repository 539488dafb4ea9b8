/** Dates in archive file names (`parse_date_from_filename`): the first eight
    characters must be digits, and `datetime.strptime(..., "%Y%m%d")` must
    accept them. The format is matched the way the standard library's
    `_strptime` does it: a regular expression built from one group per
    directive, tried left to right with alternatives in their written order,
    not anchored at the end, followed by an "unconverted data remains" check
    and the calendar range checks of `datetime`. */
module DateParse {
  import opened Common
  import opened PyInt

  datatype Date = Date(year: int, month: int, day: int)

  // ---------------------------------------------------------------------------
  // The proleptic Gregorian calendar of Python's datetime

  const MinYear := 1
  const MaxYear := 9999

  predicate IsLeapYear(y: int) {
    y % 4 == 0 && (y % 100 != 0 || y % 400 == 0)
  }

  function DaysInMonth(y: int, m: int): int
    requires 1 <= m <= 12
  {
    if m == 2 then (if IsLeapYear(y) then 29 else 28)
    else if m == 4 || m == 6 || m == 9 || m == 11 then 30
    else 31
  }

  /** What `datetime(year, month, day)` accepts. */
  predicate IsCalendarDate(d: Date) {
    && MinYear <= d.year <= MaxYear
    && 1 <= d.month <= 12
    && 1 <= d.day <= DaysInMonth(d.year, d.month)
  }

  // ---------------------------------------------------------------------------
  // The `%Y%m%d` pattern

  /** One directive group as matched: its length and `int()` of its text. */
  datatype Field = Field(len: nat, value: int)

  /** `%m` is `1[0-2]|0[1-9]|[1-9]`: the alternatives that match at `p`, in
      the order the regex engine tries them. */
  function MonthAlternatives(s: string, p: nat): (alts: seq<Field>)
    ensures forall k :: 0 <= k < |alts| ==> 1 <= alts[k].len <= 2 && p + alts[k].len <= |s|
  {
    (if p + 1 < |s| && s[p] == '1' && '0' <= s[p + 1] <= '2' then [Field(2, 10 + DigitValue(s[p + 1]))] else [])
    + (if p + 1 < |s| && s[p] == '0' && '1' <= s[p + 1] <= '9' then [Field(2, DigitValue(s[p + 1]))] else [])
    + (if p < |s| && '1' <= s[p] <= '9' then [Field(1, DigitValue(s[p]))] else [])
  }

  /** `%d` is `3[01]|[12]\d|0[1-9]|[1-9]| [1-9]`, likewise. */
  function DayAlternatives(s: string, p: nat): (alts: seq<Field>)
    ensures forall k :: 0 <= k < |alts| ==> 1 <= alts[k].len <= 2 && p + alts[k].len <= |s|
  {
    (if p + 1 < |s| && s[p] == '3' && '0' <= s[p + 1] <= '1' then [Field(2, 30 + DigitValue(s[p + 1]))] else [])
    + (if p + 1 < |s| && '1' <= s[p] <= '2' && IsDigit(s[p + 1]) then [Field(2, 10 * DigitValue(s[p]) + DigitValue(s[p + 1]))] else [])
    + (if p + 1 < |s| && s[p] == '0' && '1' <= s[p + 1] <= '9' then [Field(2, DigitValue(s[p + 1]))] else [])
    + (if p < |s| && '1' <= s[p] <= '9' then [Field(1, DigitValue(s[p]))] else [])
    + (if p + 1 < |s| && s[p] == ' ' && '1' <= s[p + 1] <= '9' then [Field(2, DigitValue(s[p + 1]))] else [])
  }

  /** Backtracking over the month alternatives: the first one after which
      some day alternative matches, with the first such day alternative. */
  function FirstMonthDay(s: string, months: seq<Field>): (r: Option<(Field, Field)>)
    ensures r.Some? ==> r.value.0 in months && r.value.1 in DayAlternatives(s, 4 + r.value.0.len)
    ensures |months| > 0 && |DayAlternatives(s, 4 + months[0].len)| > 0 ==>
              r == Some((months[0], DayAlternatives(s, 4 + months[0].len)[0]))
  {
    if |months| == 0 then None
    else
      var days := DayAlternatives(s, 4 + months[0].len);
      if |days| > 0 then Some((months[0], days[0]))
      else FirstMonthDay(s, months[1..])
  }

  /** `re.match` of the compiled `%Y%m%d` pattern: `%Y` is four digits. */
  function RegexMatch(s: string): Option<(int, Field, Field)> {
    if |s| < 4 || !AllDigits(s[..4]) then None
    else
      match FirstMonthDay(s, MonthAlternatives(s, 4))
      case None => None
      case Some(md) => Some((DigitsValue(s[..4]), md.0, md.1))
  }

  /** `datetime.strptime(s, "%Y%m%d")`, `None` standing for `ValueError`:
      no match, unconverted data after the match, or a date outside the
      calendar. */
  function StrptimeYmd(s: string): (r: Option<Date>)
    ensures r.Some? ==> IsCalendarDate(r.value)
  {
    match RegexMatch(s)
    case None => None
    case Some(m) =>
      var (year, month, day) := m;
      if 4 + month.len + day.len != |s| then None
      else
        var d := Date(year, month.value, day.value);
        if IsCalendarDate(d) then Some(d) else None
  }

  // ---------------------------------------------------------------------------
  // What the pattern means on eight digits

  /** The date eight digits spell as `YYYYMMDD`, valid or not. */
  function FieldsOf(s: string): Date
    requires |s| == 8 && AllDigits(s)
  {
    Date(DigitsValue(s[..4]), DigitsValue(s[4..6]), DigitsValue(s[6..8]))
  }

  /** On eight digits the regex, the end check and the calendar check
      together accept exactly the `YYYYMMDD` readings that are calendar dates,
      and give that reading. */
  lemma StrptimeIsCalendarCheck(s: string)
    requires |s| == 8 && AllDigits(s)
    ensures StrptimeYmd(s) == (if IsCalendarDate(FieldsOf(s)) then Some(FieldsOf(s)) else None)
  {
    if 1 <= 10 * DigitValue(s[4]) + DigitValue(s[5]) <= 12 && 1 <= 10 * DigitValue(s[6]) + DigitValue(s[7]) <= 31 {
      CalendarCheckMatched(s);
    } else {
      CalendarCheckUnmatched(s);
    }
  }

  /** Month and day groups in range: the pattern matches all eight
      characters and the calendar check decides. */
  lemma CalendarCheckMatched(s: string)
    requires |s| == 8 && AllDigits(s)
    requires 1 <= 10 * DigitValue(s[4]) + DigitValue(s[5]) <= 12
    requires 1 <= 10 * DigitValue(s[6]) + DigitValue(s[7]) <= 31
    ensures StrptimeYmd(s) == (if IsCalendarDate(FieldsOf(s)) then Some(FieldsOf(s)) else None)
  {
    var month := 10 * DigitValue(s[4]) + DigitValue(s[5]);
    var day := 10 * DigitValue(s[6]) + DigitValue(s[7]);
    TwoDigitValue(s[4..6]);
    TwoDigitValue(s[6..8]);
    assert FieldsOf(s) == Date(DigitsValue(s[..4]), month, day);
    TwoDigitGroupsMatch(s);
    StrptimeOfMatch(s, DigitsValue(s[..4]), Field(2, month), Field(2, day));
  }

  /** A month group outside 01..12 or a day group outside 01..31: neither
      the pattern nor the calendar accepts. */
  lemma CalendarCheckUnmatched(s: string)
    requires |s| == 8 && AllDigits(s)
    requires !(1 <= 10 * DigitValue(s[4]) + DigitValue(s[5]) <= 12
               && 1 <= 10 * DigitValue(s[6]) + DigitValue(s[7]) <= 31)
    ensures StrptimeYmd(s) == None && !IsCalendarDate(FieldsOf(s))
  {
    TwoDigitValue(s[4..6]);
    TwoDigitValue(s[6..8]);
    OtherGroupsRejected(s);
  }

  /** Once the pattern has matched, `strptime` only checks that nothing is
      left over and that the fields form a calendar date. */
  lemma StrptimeOfMatch(s: string, year: int, month: Field, day: Field)
    requires RegexMatch(s) == Some((year, month, day))
    ensures StrptimeYmd(s) == if 4 + month.len + day.len != |s| then None
                              else if IsCalendarDate(Date(year, month.value, day.value)) then Some(Date(year, month.value, day.value))
                              else None
  {
  }

  lemma TwoDigitGroupsMatch(s: string)
    requires |s| == 8 && AllDigits(s)
    requires 1 <= 10 * DigitValue(s[4]) + DigitValue(s[5]) <= 12
    requires 1 <= 10 * DigitValue(s[6]) + DigitValue(s[7]) <= 31
    ensures RegexMatch(s) == Some((DigitsValue(s[..4]),
                                   Field(2, 10 * DigitValue(s[4]) + DigitValue(s[5])),
                                   Field(2, 10 * DigitValue(s[6]) + DigitValue(s[7]))))
  {
    var month := 10 * DigitValue(s[4]) + DigitValue(s[5]);
    var day := 10 * DigitValue(s[6]) + DigitValue(s[7]);
    MonthFirst(s);
    DayFirst(s);
    FirstPair(s, MonthAlternatives(s, 4), Field(2, month), Field(2, day));
    assert AllDigits(s[..4]);
  }

  /** A month `01`..`12` is the first month alternative. */
  lemma MonthFirst(s: string)
    requires |s| == 8 && AllDigits(s)
    requires 1 <= 10 * DigitValue(s[4]) + DigitValue(s[5]) <= 12
    ensures |MonthAlternatives(s, 4)| > 0
    ensures MonthAlternatives(s, 4)[0] == Field(2, 10 * DigitValue(s[4]) + DigitValue(s[5]))
  {
  }

  /** A day `01`..`31` is the first day alternative. */
  lemma DayFirst(s: string)
    requires |s| == 8 && AllDigits(s)
    requires 1 <= 10 * DigitValue(s[6]) + DigitValue(s[7]) <= 31
    ensures |DayAlternatives(s, 6)| > 0
    ensures DayAlternatives(s, 6)[0] == Field(2, 10 * DigitValue(s[6]) + DigitValue(s[7]))
  {
  }

  /** Backtracking stops at the first month alternative when a day follows it. */
  lemma FirstPair(s: string, months: seq<Field>, m: Field, d: Field)
    requires |months| > 0 && months[0] == m
    requires |DayAlternatives(s, 4 + m.len)| > 0 && DayAlternatives(s, 4 + m.len)[0] == d
    ensures FirstMonthDay(s, months) == Some((m, d))
  {
  }

  lemma OtherGroupsRejected(s: string)
    requires |s| == 8 && AllDigits(s)
    requires !(1 <= 10 * DigitValue(s[4]) + DigitValue(s[5]) <= 12
               && 1 <= 10 * DigitValue(s[6]) + DigitValue(s[7]) <= 31)
    ensures StrptimeYmd(s) == None
  {
    MonthTwoDigits(s);
    DayTwoDigits(s);
    match RegexMatch(s)
    case None =>
    case Some(m) =>
      assert m.1 in MonthAlternatives(s, 4) && m.2 in DayAlternatives(s, 4 + m.1.len);
  }

  /** A two-character month group only matches a month `01`..`12`, and then
      comes first with that value. */
  lemma MonthTwoDigits(s: string)
    requires |s| == 8 && AllDigits(s)
    ensures var month := 10 * DigitValue(s[4]) + DigitValue(s[5]);
            && (forall f :: f in MonthAlternatives(s, 4) && f.len == 2 ==> 1 <= month <= 12 && f.value == month)
            && (1 <= month <= 12 ==> MonthAlternatives(s, 4)[0] == Field(2, month))
  {
  }

  /** A two-character day group at the end only matches a day `01`..`31`,
      and then comes first with that value. */
  lemma DayTwoDigits(s: string)
    requires |s| == 8 && AllDigits(s)
    ensures var day := 10 * DigitValue(s[6]) + DigitValue(s[7]);
            && (forall f :: f in DayAlternatives(s, 6) && f.len == 2 ==> 1 <= day <= 31 && f.value == day)
            && (1 <= day <= 31 ==> DayAlternatives(s, 6)[0] == Field(2, day))
  {
  }

  // ---------------------------------------------------------------------------
  // parse_date_from_filename

  /** `parse_date_from_filename(name)`: `^(\d{8})` must match, then the eight
      digits go to `strptime`. */
  function ParseDateFromFilename(name: string): (r: Option<Date>)
    ensures r.Some? <==> |name| >= 8 && AllDigits(name[..8]) && IsCalendarDate(FieldsOf(name[..8]))
    ensures r.Some? ==> r.value == FieldsOf(name[..8])
  {
    if |name| >= 8 && AllDigits(name[..8]) then
      StrptimeIsCalendarCheck(name[..8]);
      StrptimeYmd(name[..8])
    else None
  }

  /** Only the first eight characters of a name decide its date. */
  lemma DateDependsOnPrefixOnly(name: string, rest: string)
    requires |name| >= 8
    ensures ParseDateFromFilename(name + rest) == ParseDateFromFilename(name)
  {
    assert (name + rest)[..8] == name[..8];
  }

  /** Names like the archive's `2019070419gm-00a9-0000-557e4086.json` are
      dated by their first eight digits: here 4 July 2019. */
  lemma SampleNameDate(rest: string)
    ensures ParseDateFromFilename("20190704" + rest) == Some(Date(2019, 7, 4))
  {
    var p := "20190704";
    DateDependsOnPrefixOnly(p, rest);
    SampleFields();
    assert p[..8] == p;
    assert IsCalendarDate(Date(2019, 7, 4));
  }

  /** The digits `20190704` read as year 2019, month 7, day 4. */
  lemma SampleFields()
    ensures AllDigits("20190704") && FieldsOf("20190704") == Date(2019, 7, 4)
  {
    var p := "20190704";
    var y, m, d := p[..4], p[4..6], p[6..8];
    assert y == "2019" && m == "07" && d == "04";
    TwoDigitValue(m);
    TwoDigitValue(d);
    assert DigitsValue(y) == 2019 by {
      var y3, y2, y1 := y[..3], y[..2], y[..1];
      assert y3[..2] == y2 && y2[..1] == y1 && y1[..0] == "";
      assert DigitsValue(y1) == 2;
      assert DigitsValue(y2) == 20;
      assert DigitsValue(y3) == 201;
    }
  }
}
