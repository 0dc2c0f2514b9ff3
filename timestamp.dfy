/** The rewrite of a `submission_time` value in compact mode:
    `datetime.strptime(v, "%a %b %d %H:%M:%S %Y").strftime("%Y-%m-%d %H:%M:%S")`.
    The format's spaces match one or more white-space characters; `%a` and `%b` are the
    C-locale abbreviations; `%d`, `%H`, `%M`, `%S` take one or two digits and `%Y` exactly
    four; nothing may follow the year; and the date must exist. */
module Timestamp {
  import opened Base
  import opened Text

  const Weekdays: seq<string> := ["Mon", "Tue", "Wed", "Thu", "Fri", "Sat", "Sun"]
  const Months: seq<string> := ["Jan", "Feb", "Mar", "Apr", "May", "Jun", "Jul", "Aug", "Sep", "Oct", "Nov", "Dec"]

  datatype DateTime = DateTime(year: int, month: int, day: int, hour: int, minute: int, second: int)

  predicate IsLeap(year: int) {
    year % 4 == 0 && (year % 100 != 0 || year % 400 == 0)
  }

  function DaysInMonth(year: int, month: int): int
    requires 1 <= month <= 12
  {
    if month == 2 then (if IsLeap(year) then 29 else 28)
    else if month == 4 || month == 6 || month == 9 || month == 11 then 30
    else 31
  }

  /** The instants a `datetime` can hold, to the second. */
  predicate Valid(d: DateTime) {
    && 1 <= d.year <= 9999
    && 1 <= d.month <= 12
    && 1 <= d.day <= DaysInMonth(d.year, d.month)
    && 0 <= d.hour <= 23 && 0 <= d.minute <= 59 && 0 <= d.second <= 59
  }

  predicate AllDigits(s: string) {
    forall k :: 0 <= k < |s| ==> IsDigit(s[k])
  }

  function DigitChar(n: nat): (c: char)
    requires n < 10
    ensures IsDigit(c) && c as int - '0' as int == n
  {
    ('0' as int + n) as char
  }

  /** The decimal value of a string of digits. */
  function Number(s: string): nat
    requires AllDigits(s)
  {
    if s == [] then 0 else 10 * Number(s[..|s| - 1]) + (s[|s| - 1] as int - '0' as int)
  }

  /** `%m`, `%d`, `%H`, `%M`, `%S` output: two digits, zero-padded. */
  function Pad2(n: nat): (r: string)
    requires n < 100
    ensures |r| == 2 && AllDigits(r) && Number(r) == n
  {
    var r := [DigitChar(n / 10), DigitChar(n % 10)];
    assert r[..1] == [r[0]] && r[..1][..0] == [];
    assert Number(r[..1]) == n / 10;
    r
  }

  /** `%Y` output: four digits, zero-padded. */
  function Pad4(n: nat): (r: string)
    requires n < 10000
    ensures |r| == 4 && AllDigits(r) && Number(r) == n
  {
    var hi := Pad2(n / 100);
    var lo := Pad2(n % 100);
    var r := hi + lo;
    assert r[..3] == hi + [lo[0]] && r[..2] == hi;
    assert Number(r) == 100 * Number(hi) + Number(lo) by {
      assert r[..3][..2] == hi;
      assert lo[..1] == [lo[0]];
    }
    r
  }

  /** A field of one or two digits, as `%d`, `%H`, `%M` and `%S` read it. */
  function ShortNumber(t: string): Option<nat> {
    if 1 <= |t| <= 2 && AllDigits(t) then Some(Number(t)) else None
  }

  /** The position of `t` in `names`, counting from 1. */
  function Lookup(names: seq<string>, t: string): (r: Option<nat>)
    ensures r.Some? ==> 1 <= r.value <= |names| && names[r.value - 1] == t
    ensures r.None? ==> t !in names
  {
    if names == [] then None
    else if names[0] == t then Some(1)
    else
      match Lookup(names[1..], t)
      case None => None
      case Some(k) => Some(k + 1)
  }

  /** The next field: the maximal run of non-space characters, and what follows it. */
  function NextField(s: string): (r: (string, string))
    ensures s == r.0 + r.1
    ensures forall k :: 0 <= k < |r.0| ==> !IsSpace(r.0[k])
    ensures r.1 != [] ==> IsSpace(r.1[0])
  {
    var e := RunEnd(s, 0, NonSpace);
    assert s == s[..e] + s[e..];
    (s[..e], s[e..])
  }

  /** A space of the format: one or more white-space characters, all of which it consumes. */
  function SkipSeparator(s: string): (r: Option<string>)
    ensures r.Some? ==> |r.value| < |s| && s == s[..|s| - |r.value|] + r.value
    ensures r.Some? ==> IsBlank(s[..|s| - |r.value|]) && (r.value != [] ==> !IsSpace(r.value[0]))
    ensures r.None? <==> s == [] || !IsSpace(s[0])
  {
    if s != [] && IsSpace(s[0]) then
      var e := RunEnd(s, 0, Space);
      assert s == s[..e] + s[e..];
      Some(s[e..])
    else None
  }

  /** `%H:%M:%S` */
  function ParseClock(t: string): Option<(nat, nat, nat)> {
    var parts := Split(t, ':');
    if |parts| != 3 then None
    else
      var h :- ShortNumber(parts[0]);
      var m :- ShortNumber(parts[1]);
      var s :- ShortNumber(parts[2]);
      Some((h, m, s))
  }

  /** `datetime.strptime(s, "%a %b %d %H:%M:%S %Y")`, or None for the ValueError. The
      format is read field by field, each stage also consuming the white space after it. */
  function ParseCtime(s: string): (r: Option<DateTime>)
    ensures r.Some? ==> Valid(r.value)
  {
    var (weekday, rest) := NextField(s);
    var _ :- Lookup(Weekdays, weekday);
    var rest :- SkipSeparator(rest);
    ParseMonth(rest)
  }

  /** `%b ` */
  function ParseMonth(s: string): (r: Option<DateTime>)
    ensures r.Some? ==> Valid(r.value)
  {
    var (month, rest) := NextField(s);
    var m :- Lookup(Months, month);
    var rest :- SkipSeparator(rest);
    ParseDay(m, rest)
  }

  /** `%d ` */
  function ParseDay(m: nat, s: string): (r: Option<DateTime>)
    ensures r.Some? ==> Valid(r.value)
  {
    var (day, rest) := NextField(s);
    var d :- ShortNumber(day);
    var rest :- SkipSeparator(rest);
    ParseTime(m, d, rest)
  }

  /** `%H:%M:%S ` */
  function ParseTime(m: nat, d: nat, s: string): (r: Option<DateTime>)
    ensures r.Some? ==> Valid(r.value)
  {
    var (clock, rest) := NextField(s);
    var hms :- ParseClock(clock);
    var rest :- SkipSeparator(rest);
    ParseYear(m, d, hms, rest)
  }

  /** `%Y`, the end of the input, and the `datetime` range checks. */
  function ParseYear(m: nat, d: nat, hms: (nat, nat, nat), s: string): (r: Option<DateTime>)
    ensures r.Some? ==> Valid(r.value)
  {
    var (year, rest) := NextField(s);
    if rest == [] && |year| == 4 && AllDigits(year) then
      var dt := DateTime(Number(year), m, d, hms.0, hms.1, hms.2);
      if Valid(dt) then Some(dt) else None
    else None
  }

  /** `strftime("%Y-%m-%d %H:%M:%S")` */
  function FormatIso(d: DateTime): (r: string)
    requires Valid(d)
    ensures IsIsoShaped(r)
    ensures Number(r[0..4]) == d.year && Number(r[5..7]) == d.month && Number(r[8..10]) == d.day
    ensures Number(r[11..13]) == d.hour && Number(r[14..16]) == d.minute && Number(r[17..19]) == d.second
  {
    var y, mo, da := Pad4(d.year), Pad2(d.month), Pad2(d.day);
    var h, mi, s := Pad2(d.hour), Pad2(d.minute), Pad2(d.second);
    var r := y + "-" + mo + "-" + da + " " + h + ":" + mi + ":" + s;
    IsoLayout(y, mo, da, h, mi, s, r);
    r
  }

  /** Where the six padded numbers sit in the joined text. */
  lemma IsoLayout(y: string, mo: string, da: string, h: string, mi: string, s: string, r: string)
    requires |y| == 4 && |mo| == 2 && |da| == 2 && |h| == 2 && |mi| == 2 && |s| == 2
    requires AllDigits(y) && AllDigits(mo) && AllDigits(da) && AllDigits(h) && AllDigits(mi) && AllDigits(s)
    requires r == y + "-" + mo + "-" + da + " " + h + ":" + mi + ":" + s
    ensures IsIsoShaped(r)
    ensures r[0..4] == y && r[5..7] == mo && r[8..10] == da
    ensures r[11..13] == h && r[14..16] == mi && r[17..19] == s
  {
    assert r[0..4] == y && r[5..7] == mo && r[8..10] == da;
    assert r[11..13] == h && r[14..16] == mi && r[17..19] == s;
  }

  /** `YYYY-MM-DD HH:MM:SS` */
  predicate IsIsoShaped(r: string) {
    && |r| == 19
    && r[4] == '-' && r[7] == '-' && r[10] == ' ' && r[13] == ':' && r[16] == ':'
    && forall k :: 0 <= k < 19 && k !in {4, 7, 10, 13, 16} ==> IsDigit(r[k])
  }

  /** The whole rewrite; None is the ValueError that aborts the caller. */
  function Reformat(s: string): (r: Option<string>)
    ensures r.Some? ==> IsIsoShaped(r.value)
  {
    var d :- ParseCtime(s);
    Some(FormatIso(d))
  }

  /** The layout `qstat -j` prints, C's `ctime`: the day of the month is padded with a space. */
  function Ctime(weekday: nat, d: DateTime): string
    requires weekday < 7 && Valid(d)
  {
    Weekdays[weekday] + (" " + MonthPart(d))
  }

  function MonthPart(d: DateTime): string
    requires Valid(d)
  {
    Months[d.month - 1] + (DayGap(d.day) + DayPart(d))
  }

  function DayPart(d: DateTime): string
    requires Valid(d)
  {
    DayDigits(d.day) + (" " + TimePart(d))
  }

  function TimePart(d: DateTime): string
    requires Valid(d)
  {
    Clock(d) + (" " + Pad4(d.year))
  }

  function DayGap(day: nat): string {
    if day < 10 then "  " else " "
  }

  function DayDigits(day: nat): (r: string)
    requires day < 100
    ensures 1 <= |r| <= 2 && AllDigits(r) && Number(r) == day
  {
    if day < 10 then
      var r := [DigitChar(day)];
      assert r[..0] == [];
      r
    else Pad2(day)
  }

  function Clock(d: DateTime): string
    requires Valid(d)
  {
    Join(":", [Pad2(d.hour), Pad2(d.minute), Pad2(d.second)])
  }

  lemma NextFieldOf(field: string, rest: string)
    requires forall k :: 0 <= k < |field| ==> !IsSpace(field[k])
    requires rest == [] || IsSpace(rest[0])
    ensures NextField(field + rest) == (field, rest)
  {
    var s := field + rest;
    assert forall k :: 0 <= k < |field| ==> s[k] == field[k];
    RunEndIs(s, 0, NonSpace, |field|);
    assert s[..|field|] == field && s[|field|..] == rest;
  }

  lemma SkipSeparatorOf(gap: string, rest: string)
    requires gap != [] && IsBlank(gap)
    requires rest != [] && !IsSpace(rest[0])
    ensures SkipSeparator(gap + rest) == Some(rest)
  {
    var s := gap + rest;
    assert forall k :: 0 <= k < |gap| ==> s[k] == gap[k];
    RunEndIs(s, 0, Space, |gap|);
    assert s[|gap|..] == rest;
  }

  lemma NameIsField(names: seq<string>, k: nat)
    requires names == Weekdays || names == Months
    requires k < |names|
    ensures |names[k]| == 3 && forall i :: 0 <= i < 3 ==> !IsSpace(names[k][i])
  {
  }

  lemma MonthsDistinct()
    ensures forall a, b :: 0 <= a < b < 12 ==> Months[a] != Months[b]
  {
    forall a, b | 0 <= a < b < 12 ensures Months[a] != Months[b] {
      assert Months[a][0] != Months[b][0] || Months[a][1] != Months[b][1] || Months[a][2] != Months[b][2];
    }
  }

  /** `%b` reads each abbreviation back as its own month number. */
  lemma MonthLookup(m: nat)
    requires 1 <= m <= 12
    ensures Lookup(Months, Months[m - 1]) == Some(m)
  {
    MonthsDistinct();
    var r := Lookup(Months, Months[m - 1]);
    assert r.Some?;
  }

  lemma ClockSplit(d: DateTime)
    requires Valid(d)
    ensures Split(Clock(d), ':') == [Pad2(d.hour), Pad2(d.minute), Pad2(d.second)]
  {
    var parts := [Pad2(d.hour), Pad2(d.minute), Pad2(d.second)];
    assert forall k :: 0 <= k < 3 ==> AllDigits(parts[k]);
    SplitJoin(parts, ':');
  }

  lemma ClockRoundTrip(d: DateTime)
    requires Valid(d)
    ensures ParseClock(Clock(d)) == Some((d.hour, d.minute, d.second))
  {
    ClockSplit(d);
    assert ShortNumber(Pad2(d.hour)) == Some(d.hour);
    assert ShortNumber(Pad2(d.minute)) == Some(d.minute);
    assert ShortNumber(Pad2(d.second)) == Some(d.second);
  }

  lemma ClockIsField(d: DateTime)
    requires Valid(d)
    ensures forall k :: 0 <= k < |Clock(d)| ==> !IsSpace(Clock(d)[k])
  {
    var h, m, s := Pad2(d.hour), Pad2(d.minute), Pad2(d.second);
    var c := h + ":" + (m + ":" + s);
    assert [h, m, s][1..] == [m, s] && [m, s][1..] == [s];
    assert Join(":", [m, s]) == m + ":" + s;
    assert Clock(d) == c;
    assert forall k :: 0 <= k < 8 ==> IsDigit(c[k]) || c[k] == ':' by {
      assert forall k :: 0 <= k < 2 ==> c[k] == h[k];
      assert forall k :: 3 <= k < 5 ==> c[k] == m[k - 3];
      assert forall k :: 6 <= k < 8 ==> c[k] == s[k - 6];
    }
  }

  lemma YearStage(d: DateTime)
    requires Valid(d)
    ensures ParseYear(d.month, d.day, (d.hour, d.minute, d.second), Pad4(d.year)) == Some(d)
  {
    var year := Pad4(d.year);
    assert forall k :: 0 <= k < |year| ==> IsDigit(year[k]);
    NextFieldOf(year, []);
    assert year + [] == year;
  }

  lemma TimeStage(d: DateTime)
    requires Valid(d)
    ensures ParseTime(d.month, d.day, TimePart(d)) == Some(d)
  {
    YearStage(d);
    ClockRoundTrip(d);
    ClockIsField(d);
    var year := Pad4(d.year);
    assert IsDigit(year[0]);
    SkipSeparatorOf(" ", year);
    NextFieldOf(Clock(d), " " + year);
  }

  lemma DayStage(d: DateTime)
    requires Valid(d)
    ensures ParseDay(d.month, DayPart(d)) == Some(d)
  {
    var digits := DayDigits(d.day);
    var tail := TimePart(d);
    var rest := " " + tail;
    assert forall k :: 0 <= k < |digits| ==> IsDigit(digits[k]);
    assert ShortNumber(digits) == Some(d.day);
    assert !IsSpace(tail[0]) by {
      ClockIsField(d);
      assert tail[0] == Clock(d)[0];
    }
    NextFieldOf(digits, rest);
    SkipSeparatorOf(" ", tail);
    assert ParseDay(d.month, digits + rest) == ParseTime(d.month, d.day, tail);
    TimeStage(d);
  }

  /** The `%b ` stage reads a month name followed by a white-space gap. */
  lemma MonthOf(m: nat, gap: string, tail: string, s: string)
    requires 1 <= m <= 12
    requires gap != [] && IsBlank(gap) && tail != [] && !IsSpace(tail[0])
    requires s == Months[m - 1] + (gap + tail)
    ensures ParseMonth(s) == ParseDay(m, tail)
  {
    MonthLookup(m);
    NameIsField(Months, m - 1);
    NextFieldOf(Months[m - 1], gap + tail);
    SkipSeparatorOf(gap, tail);
  }

  /** The day part starts with a digit, after a gap of white space. */
  lemma DayPartStart(d: DateTime)
    requires Valid(d)
    ensures DayPart(d) != [] && !IsSpace(DayPart(d)[0])
    ensures DayGap(d.day) != [] && IsBlank(DayGap(d.day))
  {
    assert DayPart(d)[0] == DayDigits(d.day)[0];
  }

  lemma MonthPartOf(d: DateTime)
    requires Valid(d)
    ensures ParseMonth(MonthPart(d)) == ParseDay(d.month, DayPart(d))
  {
    var gap, tail := DayGap(d.day), DayPart(d);
    DayPartStart(d);
    var s := MonthPart(d);
    MonthOf(d.month, gap, tail, s);
  }

  lemma MonthStage(d: DateTime)
    requires Valid(d)
    ensures ParseMonth(MonthPart(d)) == Some(d)
  {
    MonthPartOf(d);
    DayStage(d);
  }

  /** Reading back what `ctime` printed gives the same instant, for every weekday name. */
  lemma CtimeRoundTrip(weekday: nat, d: DateTime)
    requires weekday < 7 && Valid(d)
    ensures ParseCtime(Ctime(weekday, d)) == Some(d)
  {
    MonthStage(d);
    NameIsField(Weekdays, weekday);
    NameIsField(Months, d.month - 1);
    assert !IsSpace(MonthPart(d)[0]);
    SkipSeparatorOf(" ", MonthPart(d));
    NextFieldOf(Weekdays[weekday], " " + MonthPart(d));
    assert Lookup(Weekdays, Weekdays[weekday]).Some?;
  }

  /** So the rewrite turns qstat's layout into `YYYY-MM-DD HH:MM:SS` of the same instant. */
  lemma ReformatCtime(weekday: nat, d: DateTime)
    requires weekday < 7 && Valid(d)
    ensures Reformat(Ctime(weekday, d)) == Some(FormatIso(d))
  {
    CtimeRoundTrip(weekday, d);
  }

  /** A gap of the format: one or more white-space characters. */
  predicate IsGap(g: string) {
    g != [] && IsBlank(g)
  }

  /** A `%d`, `%H`, `%M` or `%S` field: one or two digits. */
  predicate IsShortField(t: string) {
    1 <= |t| <= 2 && AllDigits(t)
  }

  /** The pieces of a text in the layout `%a %b %d %H:%M:%S %Y`. */
  datatype CtimeFields = CtimeFields(weekday: string, gap1: string, month: string, gap2: string,
    day: string, gap3: string, hour: string, minute: string, second: string, gap4: string, year: string)

  function ClockText(h: string, mi: string, se: string): string {
    h + (":" + (mi + (":" + se)))
  }

  /** The text from `%H` on. */
  function TimeText(f: CtimeFields): string {
    ClockText(f.hour, f.minute, f.second) + (f.gap4 + f.year)
  }

  /** The text from `%d` on. */
  function DayText(f: CtimeFields): string {
    f.day + (f.gap3 + TimeText(f))
  }

  /** The text from `%b` on. */
  function MonthText(f: CtimeFields): string {
    f.month + (f.gap2 + DayText(f))
  }

  /** The text the pieces make up. */
  function CtimeText(f: CtimeFields): string {
    f.weekday + (f.gap1 + MonthText(f))
  }

  /** The pieces from `%d` on spell the day, the clock and the year of instant `d`. */
  predicate SpellsDay(f: CtimeFields, d: DateTime) {
    && IsShortField(f.day) && Number(f.day) == d.day && IsGap(f.gap3)
    && IsShortField(f.hour) && Number(f.hour) == d.hour
    && IsShortField(f.minute) && Number(f.minute) == d.minute
    && IsShortField(f.second) && Number(f.second) == d.second && IsGap(f.gap4)
    && |f.year| == 4 && AllDigits(f.year) && Number(f.year) == d.year
  }

  /** The pieces spell instant `d`: a weekday name, the name of `d`'s month, the day, the
      clock and a four-digit year, with a gap of white space between each two. */
  predicate Spells(f: CtimeFields, d: DateTime) {
    && f.weekday in Weekdays && IsGap(f.gap1)
    && 1 <= d.month <= 12 && f.month == Months[d.month - 1] && IsGap(f.gap2)
    && SpellsDay(f, d)
  }

  /** `s` is laid out as `%a %b %d %H:%M:%S %Y` and spells instant `d`. */
  ghost predicate FitsCtime(s: string, d: DateTime) {
    exists f :: Spells(f, d) && CtimeText(f) == s
  }

  /** strptime accepts exactly the texts laid out as the format, and the instant it
      returns is the one they spell. */
  lemma ParseCtimeFits(s: string, d: DateTime)
    ensures ParseCtime(s) == Some(d) <==> FitsCtime(s, d) && Valid(d)
  {
    if ParseCtime(s) == Some(d) {
      var f := ParsedFields(s, d);
    }
    if FitsCtime(s, d) && Valid(d) {
      var f :| Spells(f, d) && CtimeText(f) == s;
      SpelledParses(f, d);
    }
  }

  /** So the rewrite succeeds exactly on texts in the format's layout that spell a valid
      instant, and gives that instant's `YYYY-MM-DD HH:MM:SS`. */
  lemma ReformatFits(s: string)
    ensures Reformat(s).Some? <==> exists d :: FitsCtime(s, d) && Valid(d)
    ensures forall d :: FitsCtime(s, d) && Valid(d) ==> Reformat(s) == Some(FormatIso(d))
  {
    if Reformat(s).Some? {
      ParseCtimeFits(s, ParseCtime(s).value);
    }
    forall d | FitsCtime(s, d) && Valid(d)
      ensures Reformat(s) == Some(FormatIso(d))
    {
      ParseCtimeFits(s, d);
    }
  }

  /** The clock of a layout is read as its three numbers. */
  lemma ClockFits(h: string, mi: string, se: string)
    requires IsShortField(h) && IsShortField(mi) && IsShortField(se)
    ensures ParseClock(ClockText(h, mi, se)) == Some((Number(h), Number(mi), Number(se)))
  {
    var t := ClockText(h, mi, se);
    ClockSplit3(h, mi, se, t);
    ClockOfParts(t, h, mi, se);
  }

  /** The clock of a layout splits at ':' into its three fields. */
  lemma ClockSplit3(h: string, mi: string, se: string, t: string)
    requires IsShortField(h) && IsShortField(mi) && IsShortField(se) && t == ClockText(h, mi, se)
    ensures Split(t, ':') == [h, mi, se]
  {
    var parts := [h, mi, se];
    NoColon(h);
    NoColon(mi);
    NoColon(se);
    assert forall k :: 0 <= k < |parts| ==> ':' !in parts[k];
    SplitJoin(parts, ':');
    JoinThree(h, mi, se);
  }

  lemma NoColon(t: string)
    requires IsShortField(t)
    ensures ':' !in t
  {
    assert forall k :: 0 <= k < |t| ==> IsDigit(t[k]);
  }

  lemma ClockOfParts(t: string, h: string, mi: string, se: string)
    requires IsShortField(h) && IsShortField(mi) && IsShortField(se)
    requires Split(t, ':') == [h, mi, se]
    ensures ParseClock(t) == Some((Number(h), Number(mi), Number(se)))
  {
    assert ShortNumber(h) == Some(Number(h));
    assert ShortNumber(mi) == Some(Number(mi));
    assert ShortNumber(se) == Some(Number(se));
  }

  /** The clock of a layout holds no white space and starts with a digit. */
  lemma ClockShape(h: string, mi: string, se: string, t: string)
    requires IsShortField(h) && IsShortField(mi) && IsShortField(se) && t == ClockText(h, mi, se)
    ensures forall k :: 0 <= k < |t| ==> !IsSpace(t[k])
    ensures t != [] && IsDigit(t[0])
  {
    assert forall k :: 0 <= k < |h| ==> t[k] == h[k];
    assert forall k :: |h| + 1 <= k < |h| + 1 + |mi| ==> t[k] == mi[k - |h| - 1];
    assert forall k :: |h| + 2 + |mi| <= k < |t| ==> t[k] == se[k - |h| - 2 - |mi|];
  }

  /** The `%Y` stage of a layout: four digits that end the text. */
  lemma YearFits(m: nat, dd: nat, hms: (nat, nat, nat), y: string, d: DateTime)
    requires |y| == 4 && AllDigits(y) && Valid(d)
    requires d == DateTime(Number(y), m, dd, hms.0, hms.1, hms.2)
    ensures ParseYear(m, dd, hms, y) == Some(d)
  {
    NextFieldOf(y, []);
    assert y + [] == y;
  }

  /** A field, a gap, and a text that starts with a non-space: the stage reads the field
      and leaves the text. */
  lemma FieldThenGap(field: string, gap: string, tail: string, s: string)
    requires forall k :: 0 <= k < |field| ==> !IsSpace(field[k])
    requires IsGap(gap) && tail != [] && !IsSpace(tail[0]) && s == field + (gap + tail)
    ensures NextField(s) == (field, gap + tail) && SkipSeparator(gap + tail) == Some(tail)
  {
    assert (gap + tail)[0] == gap[0];
    NextFieldOf(field, gap + tail);
    SkipSeparatorOf(gap, tail);
  }

  /** The `%H:%M:%S ` stage of a layout. */
  lemma TimeFits(d: DateTime, h: string, mi: string, se: string, gap: string, y: string, clock: string, s: string)
    requires IsShortField(h) && IsShortField(mi) && IsShortField(se) && IsGap(gap)
    requires |y| == 4 && AllDigits(y) && Valid(d) && clock == ClockText(h, mi, se) && s == clock + (gap + y)
    requires d.year == Number(y) && d.hour == Number(h) && d.minute == Number(mi) && d.second == Number(se)
    ensures ParseTime(d.month, d.day, s) == Some(d)
  {
    var m: nat, dd: nat := d.month, d.day;
    var hms := (Number(h), Number(mi), Number(se));
    ClockThenYear(h, mi, se, gap, y, clock, s);
    TimeOf(m, dd, s, clock, gap + y, hms, y);
    YearFits(m, dd, hms, y, d);
  }

  /** A layout's clock is read as its field, and its gap is skipped up to the year. */
  lemma ClockThenYear(h: string, mi: string, se: string, gap: string, y: string, clock: string, s: string)
    requires IsShortField(h) && IsShortField(mi) && IsShortField(se) && IsGap(gap)
    requires |y| == 4 && AllDigits(y) && clock == ClockText(h, mi, se) && s == clock + (gap + y)
    ensures NextField(s) == (clock, gap + y) && SkipSeparator(gap + y) == Some(y)
    ensures ParseClock(clock) == Some((Number(h), Number(mi), Number(se)))
  {
    ClockFits(h, mi, se);
    ClockShape(h, mi, se, clock);
    DigitNotSpace(y[0]);
    FieldThenGap(clock, gap, y, s);
  }

  lemma DigitNotSpace(c: char)
    requires IsDigit(c)
    ensures !IsSpace(c)
  {
  }

  /** The `%H:%M:%S ` stage hands the year stage what follows the clock and its gap. */
  lemma TimeOf(m: nat, dd: nat, s: string, clock: string, rest: string, hms: (nat, nat, nat), y: string)
    requires NextField(s) == (clock, rest) && ParseClock(clock) == Some(hms) && SkipSeparator(rest) == Some(y)
    ensures ParseTime(m, dd, s) == ParseYear(m, dd, hms, y)
  {
  }

  /** The `%d ` stage of a layout. */
  lemma DayFits(m: nat, day: string, gap: string, tail: string, s: string)
    requires IsShortField(day) && IsGap(gap) && tail != [] && !IsSpace(tail[0])
    requires s == day + (gap + tail)
    ensures ParseDay(m, s) == ParseTime(m, Number(day), tail)
  {
    assert forall k :: 0 <= k < |day| ==> IsDigit(day[k]);
    FieldThenGap(day, gap, tail, s);
    assert ShortNumber(day) == Some(Number(day));
  }

  /** The `%a ` stage of a layout. */
  lemma WeekdayFits(w: string, gap: string, tail: string, s: string)
    requires w in Weekdays && IsGap(gap) && tail != [] && !IsSpace(tail[0])
    requires s == w + (gap + tail)
    ensures ParseCtime(s) == ParseMonth(tail)
  {
    var k :| 0 <= k < |Weekdays| && Weekdays[k] == w;
    NameIsField(Weekdays, k);
    FieldThenGap(w, gap, tail, s);
    assert Lookup(Weekdays, w).Some?;
  }

  /** The first character of a text made of a non-empty piece and more. */
  lemma FirstOf(a: string, b: string, s: string)
    requires a != [] && s == a + b
    ensures s != [] && s[0] == a[0]
  {
  }

  /** A layout that spells a valid instant is read as that instant. */
  lemma SpelledParses(f: CtimeFields, d: DateTime)
    requires Spells(f, d) && Valid(d)
    ensures ParseCtime(CtimeText(f)) == Some(d)
  {
    var t := MonthText(f);
    MonthSpelled(f, d);
    WeekdayFits(f.weekday, f.gap1, t, CtimeText(f));
  }

  /** The `%b` stage of a layout and all after it. */
  lemma MonthSpelled(f: CtimeFields, d: DateTime)
    requires 1 <= d.month <= 12 && f.month == Months[d.month - 1] && IsGap(f.gap2)
    requires SpellsDay(f, d) && Valid(d)
    ensures ParseMonth(MonthText(f)) == Some(d)
    ensures MonthText(f) != [] && !IsSpace(MonthText(f)[0])
  {
    DaySpelled(f, d);
    MonthFits(d.month, f.month, f.gap2, DayText(f), MonthText(f));
  }

  /** The `%b ` stage of a layout. */
  lemma MonthFits(m: nat, name: string, gap: string, t: string, s: string)
    requires 1 <= m <= 12 && name == Months[m - 1] && IsGap(gap)
    requires t != [] && IsDigit(t[0]) && s == name + (gap + t)
    ensures ParseMonth(s) == ParseDay(m, t) && s != [] && !IsSpace(s[0])
  {
    DigitNotSpace(t[0]);
    MonthOf(m, gap, t, s);
    NameIsField(Months, m - 1);
    FirstOf(name, gap + t, s);
  }

  /** The `%d` stage of a layout and all after it. */
  lemma DaySpelled(f: CtimeFields, d: DateTime)
    requires SpellsDay(f, d) && Valid(d)
    ensures ParseDay(d.month, DayText(f)) == Some(d)
    ensures DayText(f) != [] && IsDigit(DayText(f)[0])
  {
    var t, s := TimeText(f), DayText(f);
    TimeSpelled(f, d);
    DigitNotSpace(t[0]);
    DayFits(d.month, f.day, f.gap3, t, s);
    FirstOf(f.day, f.gap3 + t, s);
    FirstDigit(f.day);
  }

  /** The `%H:%M:%S %Y` stages of a layout. */
  lemma TimeSpelled(f: CtimeFields, d: DateTime)
    requires SpellsDay(f, d) && Valid(d)
    ensures ParseTime(d.month, d.day, TimeText(f)) == Some(d)
    ensures TimeText(f) != [] && IsDigit(TimeText(f)[0])
  {
    var clock, s := ClockText(f.hour, f.minute, f.second), TimeText(f);
    TimeFits(d, f.hour, f.minute, f.second, f.gap4, f.year, clock, s);
    ClockShape(f.hour, f.minute, f.second, clock);
    FirstOf(clock, f.gap4 + f.year, s);
  }

  lemma FirstDigit(t: string)
    requires IsShortField(t)
    ensures IsDigit(t[0])
  {
  }

  /** What the `%Y` stage accepted: four digits and nothing after them. */
  lemma ParsedYear(m: nat, dd: nat, hms: (nat, nat, nat), s: string, d: DateTime)
    requires ParseYear(m, dd, hms, s) == Some(d)
    ensures |s| == 4 && AllDigits(s) && Valid(d)
    ensures d == DateTime(Number(s), m, dd, hms.0, hms.1, hms.2)
  {
    var r := NextField(s);
    assert r.1 == [] && r.0 + [] == r.0;
    assert s == r.0;
  }

  /** What `%H:%M:%S` accepted: three short fields joined by ':'. */
  lemma ParsedClock(t: string, hms: (nat, nat, nat)) returns (h: string, mi: string, se: string)
    requires ParseClock(t) == Some(hms)
    ensures t == ClockText(h, mi, se)
    ensures IsShortField(h) && IsShortField(mi) && IsShortField(se)
    ensures Number(h) == hms.0 && Number(mi) == hms.1 && Number(se) == hms.2
  {
    var parts := Split(t, ':');
    h, mi, se := parts[0], parts[1], parts[2];
    ClockParts(t, parts, h, mi, se);
    ClockJoin(t, parts, h, mi, se);
  }

  /** The numbers of the three parts of an accepted clock. */
  lemma ClockParts(t: string, parts: seq<string>, h: string, mi: string, se: string)
    requires parts == Split(t, ':') && |parts| == 3 && h == parts[0] && mi == parts[1] && se == parts[2]
    requires ParseClock(t).Some?
    ensures IsShortField(h) && IsShortField(mi) && IsShortField(se)
    ensures ParseClock(t) == Some((Number(h), Number(mi), Number(se)))
  {
  }

  /** An accepted clock is its three parts joined by ':'. */
  lemma ClockJoin(t: string, parts: seq<string>, h: string, mi: string, se: string)
    requires parts == Split(t, ':') && |parts| == 3 && h == parts[0] && mi == parts[1] && se == parts[2]
    ensures t == ClockText(h, mi, se)
  {
    JoinSplit(t, ':');
    assert parts == [h, mi, se];
    JoinThree(h, mi, se);
  }

  lemma JoinThree(h: string, mi: string, se: string)
    ensures Join([':'], [h, mi, se]) == ClockText(h, mi, se)
  {
    var rest := [mi, se];
    assert [h, mi, se][1..] == rest && rest[1..] == [se];
    assert Join([':'], rest) == mi + [':'] + se;
  }

  /** A stage that reads a field and then a gap splits its text into the field, the gap
      and the rest. */
  lemma GapAfterField(s: string) returns (gap: string)
    requires SkipSeparator(NextField(s).1).Some?
    ensures s == NextField(s).0 + (gap + SkipSeparator(NextField(s).1).value) && IsGap(gap)
  {
    var r := NextField(s);
    var tail := SkipSeparator(r.1).value;
    gap := r.1[..|r.1| - |tail|];
  }

  /** What the `%H:%M:%S %Y` stage accepted. */
  lemma ParsedTime(m: nat, dd: nat, s: string, d: DateTime) returns (h: string, mi: string, se: string, gap: string, y: string)
    requires ParseTime(m, dd, s) == Some(d)
    ensures s == ClockText(h, mi, se) + (gap + y)
    ensures IsShortField(h) && IsShortField(mi) && IsShortField(se) && IsGap(gap)
    ensures |y| == 4 && AllDigits(y) && Valid(d)
    ensures d == DateTime(Number(y), m, dd, Number(h), Number(mi), Number(se))
  {
    var clock := NextField(s).0;
    var hms := ParseClock(clock).value;
    y := SkipSeparator(NextField(s).1).value;
    assert ParseYear(m, dd, hms, y) == Some(d);
    gap := GapAfterField(s);
    ParsedYear(m, dd, hms, y, d);
    h, mi, se := ParsedClock(clock, hms);
  }

  /** What the `%d ` stage accepted. */
  lemma ParsedDay(m: nat, s: string, d: DateTime) returns (day: string, gap: string, tail: string)
    requires ParseDay(m, s) == Some(d)
    ensures s == day + (gap + tail) && IsShortField(day) && IsGap(gap)
    ensures ParseTime(m, Number(day), tail) == Some(d)
  {
    day := NextField(s).0;
    tail := SkipSeparator(NextField(s).1).value;
    assert ShortNumber(day).Some?;
    gap := GapAfterField(s);
  }

  /** What the `%b ` stage accepted. */
  lemma ParsedMonth(s: string, d: DateTime) returns (m: nat, gap: string, tail: string)
    requires ParseMonth(s) == Some(d)
    ensures 1 <= m <= 12 && s == Months[m - 1] + (gap + tail) && IsGap(gap)
    ensures ParseDay(m, tail) == Some(d)
  {
    var month := NextField(s).0;
    m := MonthStep(s, d);
    tail := SkipSeparator(NextField(s).1).value;
    gap := GapAfterField(s);
  }

  /** The `%b ` stage found the month name of the text's first field. */
  lemma MonthStep(s: string, d: DateTime) returns (m: nat)
    requires ParseMonth(s) == Some(d)
    ensures 1 <= m <= 12 && Months[m - 1] == NextField(s).0
    ensures SkipSeparator(NextField(s).1).Some? && ParseDay(m, SkipSeparator(NextField(s).1).value) == Some(d)
  {
    var r := NextField(s);
    var found := Lookup(Months, r.0);
    assert found.Some?;
    m := found.value;
    LookupHit(Months, r.0, m);
  }

  /** Where a lookup finds a name. */
  lemma LookupHit(names: seq<string>, t: string, k: nat)
    requires Lookup(names, t) == Some(k)
    ensures 1 <= k <= |names| && names[k - 1] == t
  {
  }

  /** What the `%a ` stage accepted. */
  lemma ParsedWeekday(s: string, d: DateTime) returns (w: string, gap: string, tail: string)
    requires ParseCtime(s) == Some(d)
    ensures s == w + (gap + tail) && w in Weekdays && IsGap(gap)
    ensures ParseMonth(tail) == Some(d)
  {
    w := NextField(s).0;
    WeekdayStep(s, d);
    tail := SkipSeparator(NextField(s).1).value;
    gap := GapAfterField(s);
  }

  /** The `%a ` stage found a weekday name as the text's first field. */
  lemma WeekdayStep(s: string, d: DateTime)
    requires ParseCtime(s) == Some(d)
    ensures NextField(s).0 in Weekdays
    ensures SkipSeparator(NextField(s).1).Some? && ParseMonth(SkipSeparator(NextField(s).1).value) == Some(d)
  {
    var k := Lookup(Weekdays, NextField(s).0).value;
  }

  /** A text strptime accepts is laid out as the format and spells the instant returned. */
  lemma ParsedFields(s: string, d: DateTime) returns (f: CtimeFields)
    requires ParseCtime(s) == Some(d)
    ensures Spells(f, d) && CtimeText(f) == s && Valid(d)
  {
    var w, gap1, t2 := ParsedWeekday(s, d);
    var m, gap2, t3 := ParsedMonth(t2, d);
    var day, gap3, t4 := ParsedDay(m, t3, d);
    var h, mi, se, gap4, y := ParsedTime(m, Number(day), t4, d);
    f := CtimeFields(w, gap1, Months[m - 1], gap2, day, gap3, h, mi, se, gap4, y);
  }

  lemma ExampleCtime()
    ensures Ctime(1, DateTime(2024, 1, 9, 11, 13, 6)) == "Tue Jan  9 11:13:06 2024"
  {
    var d := DateTime(2024, 1, 9, 11, 13, 6);
    ExampleDate(d);
    ExampleWeekdayText(Weekdays[1], MonthPart(d));
  }

  /** The example's weekday before its month part. */
  lemma ExampleWeekdayText(w: string, m: string)
    requires w == "Tue" && m == "Jan  9 11:13:06 2024"
    ensures w + (" " + m) == "Tue Jan  9 11:13:06 2024"
  {
  }

  /** The clock of the example. */
  lemma ExampleClock(d: DateTime)
    requires d == DateTime(2024, 1, 9, 11, 13, 6)
    ensures Valid(d) && Clock(d) == "11:13:06"
  {
    var h, mi, s := Pad2(11), Pad2(13), Pad2(6);
    assert h == "11";
    assert mi == "13";
    assert s == "06";
    var parts := [h, mi, s];
    assert parts[1..] == [mi, s];
    assert parts[1..][1..] == [s];
  }

  /** The time part of the example. */
  lemma ExampleTime(d: DateTime)
    requires d == DateTime(2024, 1, 9, 11, 13, 6)
    ensures Valid(d) && TimePart(d) == "11:13:06 2024"
  {
    ExampleClock(d);
    var y := Pad4(2024);
    assert y == "2024";
  }

  /** The day part of the example. */
  lemma ExampleDay(d: DateTime)
    requires d == DateTime(2024, 1, 9, 11, 13, 6)
    ensures Valid(d) && DayPart(d) == "9 11:13:06 2024"
  {
    ExampleTime(d);
    var dd := DayDigits(9);
    assert dd == "9";
  }

  /** The month part of the example. */
  lemma ExampleDate(d: DateTime)
    requires d == DateTime(2024, 1, 9, 11, 13, 6)
    ensures Valid(d) && MonthPart(d) == "Jan  9 11:13:06 2024"
  {
    ExampleDay(d);
  }



  lemma ExampleIso()
    ensures FormatIso(DateTime(2024, 1, 9, 11, 13, 6)) == "2024-01-09 11:13:06"
  {
    var d := DateTime(2024, 1, 9, 11, 13, 6);
    assert Valid(d);
    var y, mo, da := Pad4(2024), Pad2(1), Pad2(9);
    var h, mi, s := Pad2(11), Pad2(13), Pad2(6);
    assert y == "2024";
    assert mo == "01";
    assert da == "09";
    assert h == "11";
    assert mi == "13";
    assert s == "06";
    assert FormatIso(d) == y + "-" + mo + "-" + da + " " + h + ":" + mi + ":" + s;
  }

  /** qstat's `Tue Jan  9 11:13:06 2024` becomes `2024-01-09 11:13:06`. */
  lemma ExampleRewrite()
    ensures Reformat("Tue Jan  9 11:13:06 2024") == Some("2024-01-09 11:13:06")
  {
    ExampleCtime();
    ExampleIso();
    ReformatCtime(1, DateTime(2024, 1, 9, 11, 13, 6));
  }

  /** Leading white space is not part of the format. */
  lemma RejectsLeadingSpace(s: string)
    requires s != [] && IsSpace(s[0])
    ensures Reformat(s) == None
  {
    RunEndIs(s, 0, NonSpace, 0);
    assert NextField(s).0 == [];
    assert Lookup(Weekdays, []) == None;
    assert ParseCtime(s) == None;
  }

  /** A value that is already `YYYY-MM-DD HH:MM:SS` is refused: the rewrite raises on it. */
  lemma RejectsIso(d: DateTime)
    requires Valid(d)
    ensures Reformat(FormatIso(d)) == None
  {
    var r := FormatIso(d);
    assert forall k :: 0 <= k < 10 ==> !IsSpace(r[k]);
    assert r == r[..10] + r[10..];
    NextFieldOf(r[..10], r[10..]);
    assert r[..10] !in Weekdays;
  }
}
