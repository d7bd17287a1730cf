/** The looser time helpers of frontend/src/App.js: parseTimeInput (form text
    to minutes, bare integers allowed), formatTimeDisplay (minutes to a label
    chosen by magnitude) and convertHoursToMinutes. */
module TimeInput {
  import opened Wrappers
  import opened JsText
  import opened TimeUtils

  /** What parseTimeInput yields: null, a whole number of minutes, or a value
      computed by JavaScript's floating-point parseFloat, which this model does
      not follow (decimal inputs like "1.5h" and the parseFloat fallback). */
  datatype Parsed = Null | Minutes(value: int) | FloatPath

  /** parseFloat finds a number at the front of s: an optional sign, then a
      digit or a '.' followed by a digit. ("Infinity" cannot occur: the text
      has been lower-cased.) Otherwise parseFloat is NaN. A number needs a
      digit somewhere, and a leading digit always makes one. */
  function StartsNumber(s: string): (b: bool)
    ensures b ==> exists i :: 0 <= i < |s| && IsDigit(s[i])
    ensures s != [] && IsDigit(s[0]) ==> b
  {
    var t := if s != [] && (s[0] == '+' || s[0] == '-') then s[1..] else s;
    |t| > 0 && (IsDigit(t[0]) || (|t| > 1 && t[0] == '.' && IsDigit(t[1])))
  }

  /** parseTimeInput: null for absent or blank input; after trimming and
      lower-casing, a pure digit string is that many minutes, and
      "<digits><m|h|d|w>" is converted to minutes. */
  function ParseTimeInput(input: Option<string>): (r: Parsed)
    ensures input.None? ==> r == Null
  {
    if input.None? || Trim(input.value) == [] then Null
    else
      var str := ToLower(Trim(input.value));
      var k := LeadingDigits(str);
      if k == |str| then Minutes(DigitsValue(str))
      else if k > 0 && k + 1 == |str| && UnitLetter(str[k]).Some? then
        Minutes(DigitsValue(str[..k]) * Factor(UnitLetter(str[k]).value))
      else if StartsNumber(str) then FloatPath
      else Null
  }

  lemma LowerDigits(ds: string)
    requires AllDigits(ds)
    ensures ToLower(ds) == ds
  {
  }

  /** Blank input, whitespace only, is null. */
  lemma ParseTimeInputBlank(s: string)
    requires AllWhitespace(s)
    ensures ParseTimeInput(Some(s)) == Null
  {
    TrimBlank(s);
  }

  /** A pure digit string, padded with whitespace or not, is that many minutes. */
  lemma ParseTimeInputDigits(pre: string, ds: string, post: string)
    requires AllWhitespace(pre) && AllWhitespace(post)
    requires ds != [] && AllDigits(ds)
    ensures ParseTimeInput(Some(pre + ds + post)) == Minutes(DigitsValue(ds))
  {
    DigitIsNotWhitespace(ds[0]);
    DigitIsNotWhitespace(ds[|ds| - 1]);
    TrimPadded(pre, ds, post);
    LowerDigits(ds);
    LeadingDigitsOf(ds, []);
    assert ds + [] == ds;
  }

  /** "<digits><unit>" in either case, padded or not, is the value times 1, 60,
      1440 or 10080 minutes. */
  lemma ParseTimeInputSuffix(pre: string, ds: string, c: char, post: string)
    requires AllWhitespace(pre) && AllWhitespace(post)
    requires ds != [] && AllDigits(ds) && UnitOf(c).Some?
    ensures ParseTimeInput(Some(pre + (ds + [c]) + post))
         == Minutes(DigitsValue(ds) * Factor(UnitOf(c).value))
  {
    var core := ds + [c];
    DigitIsNotWhitespace(ds[0]);
    UnitIsNotDigitOrSpace(c);
    TrimPadded(pre, core, post);
    var str := ToLower(core);
    LowerDigits(ds);
    assert str == ds + [LowerChar(c)];
    LeadingDigitsOf(ds, [LowerChar(c)]);
    assert str[..|ds|] == ds;
  }

  /** Where parseDuration accepts "<digits><unit>" with no space,
      parseTimeInput gives the same minutes. */
  lemma ParseTimeInputAgreesWithParseDuration(ds: string, c: char)
    requires ds != [] && AllDigits(ds) && UnitOf(c).Some?
    ensures ParseDuration(Some(ds + [c])).Some?
    ensures ParseTimeInput(Some(ds + [c])) == Minutes(ParseDuration(Some(ds + [c])).value)
  {
    ParseDurationValue(ds, "", c);
    assert ds + "" + [c] == ds + [c];
    ParseTimeInputSuffix("", ds, c, "");
    assert "" + (ds + [c]) + "" == ds + [c];
  }

  /** The two parsers differ on a bare number: parseDuration rejects it and
      parseTimeInput reads it as minutes. */
  lemma BareNumberParsersDisagree(ds: string)
    requires ds != [] && AllDigits(ds)
    ensures ParseDuration(Some(ds)) == None
    ensures ParseTimeInput(Some(ds)) == Minutes(DigitsValue(ds))
  {
    ParseDurationRejectsBareNumber(ds);
    ParseTimeInputDigits("", ds, "");
    assert "" + ds + "" == ds;
  }

  /** The text of a whole number of minutes, as the edit form shows a stored
      duration or a periodicity converted to minutes, reads back unchanged. */
  lemma EditFormRoundTrip(n: nat)
    ensures ParseTimeInput(Some(NatToString(n))) == Minutes(n)
  {
    ParseTimeInputDigits("", NatToString(n), "");
    assert "" + NatToString(n) + "" == NatToString(n);
  }

  /** The next smaller unit, the one a two-part label shows second. */
  function Finer(u: Unit): Unit {
    match u
    case Week => Day
    case Day => Hour
    case Hour => Minute
    case Minute => Minute
  }

  /** How a label of formatTimeDisplay is built: one count with its unit, or a
      count with its unit and a remainder in the next smaller unit. */
  datatype Display = Single(count: int, unit: Unit) | Pair(count: int, unit: Unit, rest: int)

  /** The minutes a label stands for. */
  function Shown(d: Display): int {
    match d
    case Single(c, u) => c * Factor(u)
    case Pair(c, u, r) => c * Factor(u) + r * Factor(Finer(u))
  }

  /** The granularity of a band: below it, minutes are dropped. */
  function Precision(u: Unit): nat {
    match u
    case Minute => 1
    case Hour => 1
    case Day => MinutesPerHour
    case Week => MinutesPerDay
  }

  /** The band formatTimeDisplay renders nonzero minutes in, and its parts:
      the band is the largest unit not above the minutes (minutes below 60,
      including negative ones), at most one finer remainder is kept, and what
      is dropped is less than the band's precision. */
  function Layout(mins: int): (d: Display)
    ensures (d.unit == Minute) == (mins < MinutesPerHour)
    ensures mins >= MinutesPerHour ==> Factor(d.unit) <= mins
    ensures d.unit == Hour ==> mins < MinutesPerDay
    ensures d.unit == Day ==> mins < MinutesPerWeek
    ensures Shown(d) <= mins < Shown(d) + Precision(d.unit)
    ensures d.Pair? ==> d.unit != Minute && 0 < d.rest && d.rest * Factor(Finer(d.unit)) < Factor(d.unit)
  {
    if mins < MinutesPerHour then Single(mins, Minute)
    else if mins < MinutesPerDay then
      var hours := mins / MinutesPerHour;
      var remainingMins := mins % MinutesPerHour;
      if remainingMins == 0 then Single(hours, Hour) else Pair(hours, Hour, remainingMins)
    else if mins < MinutesPerWeek then
      var days := mins / MinutesPerDay;
      var remainingHours := (mins % MinutesPerDay) / MinutesPerHour;
      if remainingHours == 0 then Single(days, Day) else Pair(days, Day, remainingHours)
    else
      var weeks := mins / MinutesPerWeek;
      var remainingDays := (mins % MinutesPerWeek) / MinutesPerDay;
      if remainingDays == 0 then Single(weeks, Week) else Pair(weeks, Week, remainingDays)
  }

  /** "<n> <unit>" with the plural unless n is 1, or "<n><u> <r><v>". */
  function Render(d: Display): (s: string)
    ensures s != []
  {
    match d
    case Single(c, u) => CountLabel(c, u)
    case Pair(c, u, r) => IntToString(c) + [Letter(u)] + " " + IntToString(r) + [Letter(Finer(u))]
  }

  /** formatTimeDisplay: empty for a missing or zero value, otherwise the
      label of the value's band. */
  function FormatTimeDisplay(minutes: Option<int>): (s: string)
    ensures s == [] <==> minutes.None? || minutes.value == 0
  {
    if minutes.None? || minutes.value == 0 then ""
    else Render(Layout(minutes.value))
  }

  /** When the minutes are a whole number of their band's unit, the two
      renderers of the front end print the same label. */
  lemma FormatAgreesWithHumanize(m: int)
    requires m > 0 && m % Factor(Layout(m).unit) == 0
    ensures FormatTimeDisplay(Some(m)) == HumanizeDuration(Some(m))
  {
    var d := Layout(m);
    LayoutLargestUnit(m);
    HumanizeUsesLargestDividingUnit(m, d.unit);
    ExactQuotient(m, d.count, Factor(d.unit), Precision(d.unit));
  }

  /** For a whole number of its band's unit, the label has no remainder and
      no larger unit divides the minutes. */
  lemma LayoutLargestUnit(m: int)
    requires m > 0 && m % Factor(Layout(m).unit) == 0
    ensures Layout(m).Single?
    ensures forall v :: Factor(v) > Factor(Layout(m).unit) ==> m % Factor(v) != 0
  {
    var d := Layout(m);
    assert d.unit == Hour ==> 0 < m % MinutesPerDay;
  }

  /** A multiple of f caught between c * f and c * f + p, p at most f, is
      exactly c times f. */
  lemma ExactQuotient(m: int, c: int, f: int, p: int)
    requires 0 < p <= f && m % f == 0 && c * f <= m < c * f + p
    ensures c == m / f
  {
    var x := m / f - c;
    assert x * f == m - c * f;
    assert 0 <= x * f < f;
  }

  /** convertHoursToMinutes: null for a missing or zero value, otherwise the
      hours times 60. */
  function ConvertHoursToMinutes(hours: Option<int>): (r: Option<int>)
    ensures r.None? <==> hours.None? || hours.value == 0
  {
    if hours.None? || hours.value == 0 then None else Some(hours.value * MinutesPerHour)
  }

  /** Converting whole hours gives what parseTimeInput reads from "<hours>h". */
  lemma ConvertHoursMatchesSuffix(h: nat)
    requires h > 0
    ensures ParseTimeInput(Some(NatToString(h) + "h")) == Minutes(ConvertHoursToMinutes(Some(h)).value)
  {
    ParseTimeInputHours(NatToString(h));
  }

  lemma ParseTimeInputHours(ds: string)
    requires ds != [] && AllDigits(ds)
    ensures ParseTimeInput(Some(ds + "h")) == Minutes(DigitsValue(ds) * MinutesPerHour)
  {
    var s := ds + "h";
    assert "" + (ds + ['h']) + "" == s;
    assert UnitOf('h') == Some(Hour);
    ParseTimeInputSuffix("", ds, 'h', "");
  }

  /** A stored periodicity of whole hours below a day is shown as that many
      hours; from a day upwards it is never shown in minutes or hours. */
  lemma PeriodicityDisplay(h: int)
    requires h > 0
    ensures h < 24 ==> FormatTimeDisplay(ConvertHoursToMinutes(Some(h))) == CountLabel(h, Hour)
    ensures h >= 24 ==> Layout(h * MinutesPerHour).unit in {Day, Week}
  {
    var m := h * MinutesPerHour;
    if h < 24 {
      assert MinutesPerHour <= m < MinutesPerDay;
      assert m / MinutesPerHour == h && m % MinutesPerHour == 0;
      assert Layout(m) == Single(h, Hour);
    } else {
      assert m >= MinutesPerDay;
    }
  }
}
