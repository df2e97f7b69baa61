/** The pure half of services/cron.go: reading a `2006-01-02T15:04` timestamp with Go's
    `time.Parse`, rendering the five-field cron string, and the cron field syntax the
    scheduler library accepts for those strings. */
module CronTime {
  import opened Wrappers
  import opened Decimal

  /** The calendar fields of a `time.Time` that the layout carries (UTC, no seconds). */
  datatype DateTime = DateTime(year: int, month: int, day: int, hour: int, minute: int)

  /** Go's `isLeap`. */
  predicate IsLeapYear(y: int) { y % 4 == 0 && (y % 100 != 0 || y % 400 == 0) }

  /** Go's `daysIn`: the length of a month in a given year. */
  function DaysIn(month: int, year: int): (n: int)
    requires 1 <= month <= 12
    ensures 28 <= n <= 31
    ensures month == 2 ==> (n == 29 <==> IsLeapYear(year))
  {
    if month == 2 then (if IsLeapYear(year) then 29 else 28)
    else if month == 4 || month == 6 || month == 9 || month == 11 then 30
    else 31
  }

  /** A time `time.Parse` can produce from the layout: a four-digit year and in-range fields. */
  predicate ValidDateTime(t: DateTime)
  {
    && 0 <= t.year <= 9999
    && 1 <= t.month <= 12
    && 1 <= t.day <= DaysIn(t.month, t.year)
    && 0 <= t.hour < 24
    && 0 <= t.minute < 60
  }

  /** A valid time, as `time.Parse(time.RFC3339, ...)` yields for a stored time mark. */
  type ValidTime = t: DateTime | ValidDateTime(t) witness DateTime(2000, 1, 1, 0, 0)

  /** `time.Parse("2006-01-02T15:04", s)`: a four-digit year, two-digit month and day, a
      one- or two-digit hour (`15` is not zero-padded when parsing), a two-digit minute,
      literal separators, nothing after the minute, every field in range and the day
      within its month. `None` is a parse error. */
  function ParseLayout(s: string): (r: Option<DateTime>)
    ensures r.Some? ==> ValidDateTime(r.value)
  {
    if !(|s| >= 12 && AllDigits(s[..4]) && s[4] == '-' && AllDigits(s[5..7]) && s[7] == '-'
         && AllDigits(s[8..10]) && s[10] == 'T' && IsDigit(s[11])) then None
    else
      var w := if |s| >= 13 && IsDigit(s[12]) then 2 else 1;
      var rest := s[11 + w..];
      if !(|rest| == 3 && rest[0] == ':' && AllDigits(rest[1..])) then None
      else
        assert AllDigits(s[11..11 + w]);
        var t := DateTime(DigitsValue(s[..4]), DigitsValue(s[5..7]), DigitsValue(s[8..10]),
                          DigitsValue(s[11..11 + w]), DigitsValue(rest[1..]));
        if ValidDateTime(t) then Some(t) else None
  }

  /** The layout's text for `t` with a given rendering of the hour. */
  function Render(t: DateTime, hourText: string): string
    requires ValidDateTime(t)
  {
    PadLeft(t.year, 4) + "-" + PadLeft(t.month, 2) + "-" + PadLeft(t.day, 2) + "T"
      + hourText + ":" + PadLeft(t.minute, 2)
  }

  /** `t.Format("2006-01-02T15:04")`: every field zero-padded. */
  function FormatLayout(t: DateTime): string
    requires ValidDateTime(t)
  {
    Render(t, PadLeft(t.hour, 2))
  }

  /** The same text with a single-digit hour, which the parser also accepts. */
  function FormatShortHour(t: DateTime): string
    requires ValidDateTime(t) && t.hour < 10
  {
    Render(t, NatToString(t.hour))
  }

  /** `fmt.Sprintf("%d %d %d %d *", t.Minute(), t.Hour(), t.Day(), int(t.Month()))`. */
  function CronString(t: DateTime): string
    requires ValidDateTime(t)
  {
    NatToString(t.minute) + " " + NatToString(t.hour) + " " + NatToString(t.day) + " "
      + NatToString(t.month) + " *"
  }

  /** `ApplyCronTimeFormat`: the cron string of the parsed time; `None` stands for the
      `("", error)` return on a parse error. */
  function ApplyCronTimeFormat(timeMark: string): (r: Option<string>)
    ensures r.Some? <==> ParseLayout(timeMark).Some?
  {
    match ParseLayout(timeMark)
    case None => None
    case Some(t) => Some(CronString(t))
  }

  // ---------------------------------------------------------------------------------
  // Cron field syntax (robfig/cron standard parser, plain-number and wildcard forms)

  datatype Field = Every | At(n: nat)

  /** minute hour day-of-month month day-of-week */
  datatype CronSpec = CronSpec(minute: Field, hour: Field, dom: Field, month: Field, dow: Field)

  /** One field: `*` or `?` is the whole range; a decimal number must lie within bounds. */
  function ParseField(f: string, lo: nat, hi: nat): (r: Option<Field>)
    ensures r.Some? && r.value.At? ==> lo <= r.value.n <= hi
  {
    if f == "*" || f == "?" then Some(Every)
    else if |f| >= 1 && AllDigits(f) && lo <= DigitsValue(f) <= hi then Some(At(DigitsValue(f)))
    else None
  }

  /** The standard five-field spec: `strings.Fields`, exactly five fields, each in range
      (minute 0-59, hour 0-23, day 1-31, month 1-12, weekday 0-6). Fields are plain numbers,
      `*` or `?` only: the cron library also reads ranges, lists, steps, names and `@`
      descriptors, which no cron string the hub builds contains. */
  function ParseCron(spec: string): (r: Option<CronSpec>)
  {
    ParseFields(Fields(spec))
  }

  function ParseFields(fs: seq<string>): (r: Option<CronSpec>)
  {
    if |fs| != 5 then None
    else
      match (ParseField(fs[0], 0, 59), ParseField(fs[1], 0, 23), ParseField(fs[2], 1, 31),
             ParseField(fs[3], 1, 12), ParseField(fs[4], 0, 6))
      case (Some(mi), Some(h), Some(d), Some(mo), Some(w)) => Some(CronSpec(mi, h, d, mo, w))
      case _ => None
  }

  predicate FieldMatches(f: Field, v: int) { f.Every? || f.n == v }

  /** When a parsed spec fires at time `t` falling on `weekday` (robfig's `dayMatches`:
      day-of-month and weekday are combined with "and" when either is a wildcard,
      with "or" otherwise). */
  predicate Matches(c: CronSpec, t: DateTime, weekday: nat)
  {
    && FieldMatches(c.minute, t.minute)
    && FieldMatches(c.hour, t.hour)
    && FieldMatches(c.month, t.month)
    && (if c.dom.Every? || c.dow.Every?
        then FieldMatches(c.dom, t.day) && FieldMatches(c.dow, weekday)
        else FieldMatches(c.dom, t.day) || FieldMatches(c.dow, weekday))
  }

  // ---------------------------------------------------------------------------------
  // Properties

  lemma NatFieldParses(n: nat, lo: nat, hi: nat)
    requires lo <= n <= hi
    ensures ParseField(NatToString(n), lo, hi) == Some(At(n))
  {
    NatToStringValue(n);
    assert NatToString(n) != "*" && NatToString(n) != "?" by {
      assert IsDigit(NatToString(n)[0]);
    }
  }

  lemma FieldsOfFour(a: string, b: string, c: string, d: string)
    requires |a| >= 1 && |b| >= 1 && |c| >= 1 && |d| >= 1
    requires NoSpace(a) && NoSpace(b) && NoSpace(c) && NoSpace(d)
    ensures Fields(a + " " + (b + " " + (c + " " + (d + " " + "*"))))== [a, b, c, d, "*"]
  {
    var r4 := d + " " + "*";
    var r3 := c + " " + r4;
    var r2 := b + " " + r3;
    FieldsSingle("*");
    FieldsCons(d, "*");
    FieldsCons(c, r4);
    FieldsCons(b, r3);
    FieldsCons(a, r2);
  }

  lemma CronStringFields(t: DateTime)
    requires ValidDateTime(t)
    ensures Fields(CronString(t))
            == [NatToString(t.minute), NatToString(t.hour), NatToString(t.day), NatToString(t.month), "*"]
  {
    var a, b, c, d := NatToString(t.minute), NatToString(t.hour), NatToString(t.day), NatToString(t.month);
    NatToStringNoSpace(t.minute);
    NatToStringNoSpace(t.hour);
    NatToStringNoSpace(t.day);
    NatToStringNoSpace(t.month);
    assert CronString(t) == a + " " + (b + " " + (c + " " + (d + " " + "*")));
    FieldsOfFour(a, b, c, d);
  }

  /** The cron string of a parsed time is a well-formed spec that the scheduler accepts:
      plain decimal minute, hour, day and month within their ranges, and a wildcard
      day-of-week. */
  lemma CronStringParses(t: DateTime)
    requires ValidDateTime(t)
    ensures ParseCron(CronString(t)) == Some(CronSpec(At(t.minute), At(t.hour), At(t.day), At(t.month), Every))
  {
    CronStringFields(t);
    NatFieldParses(t.minute, 0, 59);
    NatFieldParses(t.hour, 0, 23);
    NatFieldParses(t.day, 1, 31);
    NatFieldParses(t.month, 1, 12);
  }

  /** The schedule is a yearly recurrence: it fires at exactly the times with the same
      minute, hour, day and month as the parsed time mark, in every year and on every
      weekday. */
  lemma FiresEveryYear(s: string, u: DateTime, weekday: nat)
    requires ParseLayout(s).Some? && weekday <= 6
    ensures ApplyCronTimeFormat(s).Some? && ParseCron(ApplyCronTimeFormat(s).value).Some?
    ensures var t := ParseLayout(s).value;
            Matches(ParseCron(ApplyCronTimeFormat(s).value).value, u, weekday)
            <==> u.minute == t.minute && u.hour == t.hour && u.day == t.day && u.month == t.month
  {
    CronStringParses(ParseLayout(s).value);
  }

  lemma SliceParts(a: string, b: string)
    ensures (a + b)[..|a|] == a && (a + b)[|a|..] == b
  {
  }

  /** Every valid time rendered with a one- or two-digit hour parses back to itself. */
  lemma {:induction false} ParseRender(t: DateTime, h: string)
    requires ValidDateTime(t) && 1 <= |h| <= 2 && AllDigits(h) && DigitsValue(h) == t.hour
    ensures ParseLayout(Render(t, h)) == Some(t)
  {
    PadLeftValue(t.year, 4);
    PadLeftValue(t.month, 2);
    PadLeftValue(t.day, 2);
    PadLeftValue(t.minute, 2);
    RenderPieces(t, h);
  }

  /** Where each field sits in a rendered text. */
  lemma RenderPieces(t: DateTime, h: string)
    requires ValidDateTime(t) && 1 <= |h| <= 2
    requires |PadLeft(t.year, 4)| == 4 && |PadLeft(t.month, 2)| == 2
    requires |PadLeft(t.day, 2)| == 2 && |PadLeft(t.minute, 2)| == 2
    ensures var s := Render(t, h);
      && |s| == 14 + |h|
      && s[..4] == PadLeft(t.year, 4) && s[4] == '-'
      && s[5..7] == PadLeft(t.month, 2) && s[7] == '-'
      && s[8..10] == PadLeft(t.day, 2) && s[10] == 'T'
      && s[11..11 + |h|] == h && s[11 + |h|..] == ":" + PadLeft(t.minute, 2)
  {
    var y, mo, d, mi := PadLeft(t.year, 4), PadLeft(t.month, 2), PadLeft(t.day, 2), PadLeft(t.minute, 2);
    var s := Render(t, h);
    assert s == y + "-" + mo + "-" + d + "T" + h + ":" + mi;
    assert s[..4] == y;
    assert s[5..7] == mo;
    assert s[8..10] == d;
    assert s[11..11 + |h|] == h;
    assert s[11 + |h|..] == ":" + mi;
  }

  /** `Format` followed by `Parse` with the same layout is the identity on valid times. */
  lemma FormatThenParse(t: DateTime)
    requires ValidDateTime(t)
    ensures ParseLayout(FormatLayout(t)) == Some(t)
  {
    PadLeftValue(t.hour, 2);
    ParseRender(t, PadLeft(t.hour, 2));
  }

  /** Round trip through the stored time mark: formatting a parsed time with the layout
      and applying the cron conversion always succeeds and keeps minute, hour, day and
      month. */
  lemma ApplyCronTimeFormatOfFormat(t: DateTime)
    requires ValidDateTime(t)
    ensures ApplyCronTimeFormat(FormatLayout(t)) == Some(CronString(t))
  {
    FormatThenParse(t);
  }

  /** The pieces of an accepted text, put back together, are the text. */
  lemma {:induction false} ParsedPieces(s: string, w: nat)
    requires w == 1 || w == 2
    requires |s| == 14 + w && s[4] == '-' && s[7] == '-' && s[10] == 'T' && s[11 + w] == ':'
    ensures s == s[..4] + "-" + s[5..7] + "-" + s[8..10] + "T" + s[11..11 + w] + ":" + s[12 + w..]
  {
    var r := s[..4] + "-" + s[5..7] + "-" + s[8..10] + "T" + s[11..11 + w] + ":" + s[12 + w..];
    assert |r| == |s|;
    forall i | 0 <= i < |s| ensures r[i] == s[i] {
    }
  }

  /** What parses is a rendering of the parsed time with the hour as it was written. */
  lemma {:induction false} ParsedIsRendered(s: string)
    requires ParseLayout(s).Some?
    ensures var t := ParseLayout(s).value;
            s == FormatLayout(t) || (t.hour < 10 && s == FormatShortHour(t))
  {
    var t := ParseLayout(s).value;
    var w := if |s| >= 13 && IsDigit(s[12]) then 2 else 1;
    var h := s[11..11 + w];
    var rest := s[11 + w..];
    assert |s| == 14 + w;
    assert rest[1..] == s[12 + w..];
    assert s[11 + w] == rest[0];
    PadLeftOfDigits(s[..4]);
    PadLeftOfDigits(s[5..7]);
    PadLeftOfDigits(s[8..10]);
    PadLeftOfDigits(s[12 + w..]);
    PadLeftOfDigits(h);
    ParsedPieces(s, w);
    assert s == Render(t, h);
    if w == 1 {
      assert PadLeft(t.hour, 1) == NatToString(t.hour);
    }
  }

  /** The layout accepts exactly the zero-padded rendering of a valid time, or the same
      text with a single-digit hour; nothing else parses, and in particular no trailing
      text and no out-of-range field. */
  lemma ParseLayoutExactly(s: string, t: DateTime)
    ensures ParseLayout(s) == Some(t)
            <==> ValidDateTime(t) && (s == FormatLayout(t) || (t.hour < 10 && s == FormatShortHour(t)))
  {
    if ParseLayout(s) == Some(t) {
      ParsedIsRendered(s);
    }
    if ValidDateTime(t) && s == FormatLayout(t) {
      FormatThenParse(t);
    }
    if ValidDateTime(t) && t.hour < 10 && s == FormatShortHour(t) {
      NatToStringValue(t.hour);
      ParseRender(t, NatToString(t.hour));
    }
  }

  /** Text after a valid timestamp makes the parse fail. */
  lemma TrailingTextRejected(s: string, tail: string)
    requires ParseLayout(s).Some? && tail != []
    ensures ParseLayout(s + tail).None?
    ensures ApplyCronTimeFormat(s + tail).None?
  {
    var u := s + tail;
    assert u[..|s|] == s;
    var w := if |s| >= 13 && IsDigit(s[12]) then 2 else 1;
    var wu := if |u| >= 13 && IsDigit(u[12]) then 2 else 1;
    assert w == wu;
    assert u[11 + w..] == s[11 + w..] + tail;
  }

  /** The year is read and validated but not used: two accepted time marks that differ
      only in their year give the same cron string. */
  lemma YearIgnored(s1: string, s2: string)
    requires ParseLayout(s1).Some? && ParseLayout(s2).Some?
    requires |s1| >= 4 && |s2| >= 4 && s1[4..] == s2[4..]
    ensures ApplyCronTimeFormat(s1) == ApplyCronTimeFormat(s2)
  {
    assert s1[5..7] == s1[4..][1..3] == s2[5..7];
    assert s1[8..10] == s1[4..][4..6] == s2[8..10];
    assert s1[12..] == s1[4..][8..] && s2[12..] == s2[4..][8..];
    assert |s1| == |s2|;
    assert s1[11] == s2[11];
    var w := if |s1| >= 13 && IsDigit(s1[12]) then 2 else 1;
    assert s1[11..11 + w] == s1[4..][7..7 + w] == s2[11..11 + w];
    assert s1[11 + w..] == s1[4..][7 + w..] == s2[11 + w..];
  }

  /** February 29th parses exactly in leap years: the year takes part in validation. */
  lemma LeapDayNeedsLeapYear(s: string)
    requires ParseLayout(s).Some? && ParseLayout(s).value.month == 2 && ParseLayout(s).value.day == 29
    ensures IsLeapYear(ParseLayout(s).value.year)
  {
  }
}
