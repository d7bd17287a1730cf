/** The duration codec of frontend/src/utils/timeUtils.js: parseDuration reads
    "<digits><spaces><unit>" into whole minutes, humanizeDuration renders
    minutes in the largest unit that divides them exactly, with Spanish labels. */
module TimeUtils {
  import opened Wrappers
  import opened JsText

  /** The four units of the codec. */
  datatype Unit = Minute | Hour | Day | Week

  const MinutesPerHour: nat := 60
  const MinutesPerDay: nat := 60 * 24
  const MinutesPerWeek: nat := 60 * 24 * 7

  /** Minutes in one unit. */
  function Factor(u: Unit): (f: nat)
    ensures f >= 1
  {
    match u
    case Minute => 1
    case Hour => MinutesPerHour
    case Day => MinutesPerDay
    case Week => MinutesPerWeek
  }

  /** The lower-case letter that names a unit in an input like "2h". */
  function Letter(u: Unit): char {
    match u
    case Minute => 'm'
    case Hour => 'h'
    case Day => 'd'
    case Week => 'w'
  }

  /** The unit named by one lower-case letter, if any. */
  function UnitLetter(c: char): (r: Option<Unit>)
    ensures r.Some? ==> Letter(r.value) == c
    ensures forall u :: Letter(u) == c ==> r == Some(u)
  {
    if c == 'm' then Some(Minute)
    else if c == 'h' then Some(Hour)
    else if c == 'd' then Some(Day)
    else if c == 'w' then Some(Week)
    else None
  }

  /** The unit named by a letter of [mhdw] under the /i flag. */
  function UnitOf(c: char): Option<Unit> {
    UnitLetter(LowerChar(c))
  }

  lemma UnitIsNotDigitOrSpace(c: char)
    requires UnitOf(c).Some?
    ensures !IsDigit(c) && !IsJsWhitespace(c)
  {
  }

  /** What /^(\d+)\s*([mhdw])$/i accepts: a digit first, a unit letter last,
      and in between digits followed by whitespace. */
  predicate DurationShape(s: string) {
    && |s| >= 2
    && IsDigit(s[0])
    && UnitOf(s[|s| - 1]).Some?
    && (forall i :: 0 <= i < |s| - 1 ==> IsDigit(s[i]) || IsJsWhitespace(s[i]))
    && (forall i, j :: 0 <= i < j < |s| - 1 && IsJsWhitespace(s[i]) ==> IsJsWhitespace(s[j]))
  }

  /** parseDuration: null for an absent or empty string and for any text the
      regular expression rejects; otherwise the number times the unit's minutes. */
  function ParseDuration(str: Option<string>): (r: Option<int>)
    ensures str.None? || str.value == [] ==> r.None?
    ensures r.Some? ==> r.value >= 0
  {
    if str.None? || str.value == [] then None
    else
      var s := str.value;
      var k := LeadingDigits(s);
      var rest := s[k..];
      var w := LeadingWhitespace(rest);
      if k == 0 || w + 1 != |rest| then None
      else
        match UnitOf(rest[w])
        case None => None
        case Some(u) => Some(DigitsValue(s[..k]) * Factor(u))
  }

  /** The value of "<digits><whitespace><unit>" is the digits' value times
      1, 60, 1440 or 10080. */
  lemma ParseDurationValue(ds: string, ws: string, c: char)
    requires ds != [] && AllDigits(ds) && AllWhitespace(ws) && UnitOf(c).Some?
    ensures ParseDuration(Some(ds + ws + [c])) == Some(DigitsValue(ds) * Factor(UnitOf(c).value))
  {
    var s := ds + ws + [c];
    UnitIsNotDigitOrSpace(c);
    assert s == ds + (ws + [c]);
    if ws != [] {
      DigitIsNotWhitespace(ds[0]);
    }
    LeadingDigitsOf(ds, ws + [c]);
    assert s[..|ds|] == ds && s[|ds|..] == ws + [c];
    LeadingWhitespaceOf(ws, [c]);
  }

  /** parseDuration accepts exactly the strings of the regular expression's
      shape: bare numbers, signs, decimals and trailing text are all null. */
  lemma ParseDurationShape(s: string)
    ensures ParseDuration(Some(s)).Some? <==> DurationShape(s)
  {
    if ParseDuration(Some(s)).Some? {
      var k := LeadingDigits(s);
      var rest := s[k..];
      var w := LeadingWhitespace(rest);
      assert forall i :: 0 <= i < k ==> s[..k][i] == s[i];
      assert forall i :: k <= i < k + w ==> rest[..w][i - k] == s[i];
      forall i | 0 <= i < k
        ensures !IsJsWhitespace(s[i])
      {
        DigitIsNotWhitespace(s[i]);
      }
      assert s[|s| - 1] == rest[w];
    }
    if DurationShape(s) {
      var k := LeadingDigits(s);
      var c := s[|s| - 1];
      assert UnitOf(c).Some?;
      UnitIsNotDigitOrSpace(c);
      var ds, ws := s[..k], s[k..|s| - 1];
      assert k < |s| - 1 ==> IsJsWhitespace(s[k]);
      assert AllWhitespace(ws);
      assert s == ds + ws + [s[|s| - 1]];
      ParseDurationValue(ds, ws, s[|s| - 1]);
    }
  }

  /** A bare number such as "45" has no unit and is rejected. */
  lemma ParseDurationRejectsBareNumber(s: string)
    requires AllDigits(s)
    ensures ParseDuration(Some(s)) == None
  {
    ParseDurationShape(s);
    if |s| >= 2 {
      assert UnitOf(s[|s| - 1]).None?;
    }
  }

  /** A signed value such as "-5m" is rejected. */
  lemma ParseDurationRejectsSign(s: string)
    requires s != [] && (s[0] == '-' || s[0] == '+')
    ensures ParseDuration(Some(s)) == None
  {
    ParseDurationShape(s);
  }

  /** An absent or empty string is null; "0m" is zero, not rejected. */
  lemma ParseDurationEdges()
    ensures ParseDuration(None) == None && ParseDuration(Some("")) == None
    ensures ParseDuration(Some("0m")) == Some(0)
  {
    ParseDurationValue("0", "", 'm');
    assert "0" + "" + ['m'] == "0m";
  }

  /** The Spanish name of a unit, singular. */
  function UnitWord(u: Unit): string {
    match u
    case Minute => "minuto"
    case Hour => "hora"
    case Day => "d\U{00ED}a"
    case Week => "semana"
  }

  /** "<q> <unit>", the label in the plural unless q is exactly 1. */
  function CountLabel(q: int, u: Unit): string {
    IntToString(q) + " " + UnitWord(u) + (if q == 1 then "" else "s")
  }

  /** The unit humanizeDuration renders minutes in: the largest of week, day,
      hour and minute that divides them. */
  function HumanizeUnit(minutes: int): (u: Unit)
    ensures minutes % Factor(u) == 0
    ensures forall v :: Factor(v) > Factor(u) ==> minutes % Factor(v) != 0
  {
    if minutes % MinutesPerWeek == 0 then Week
    else if minutes % MinutesPerDay == 0 then Day
    else if minutes % MinutesPerHour == 0 then Hour
    else Minute
  }

  /** humanizeDuration: "-" for null, otherwise the exact count of the
      largest evenly dividing unit; no count label is ever "-". */
  function HumanizeDuration(minutes: Option<int>): (s: string)
    ensures s == "-" <==> minutes.None?
  {
    match minutes
    case None => "-"
    case Some(m) =>
      var u := HumanizeUnit(m);
      CountLabel(m / Factor(u), u)
  }

  /** Any unit that divides the minutes, with no larger unit dividing them,
      is the one humanizeDuration uses, and the count is exact. */
  lemma HumanizeUsesLargestDividingUnit(m: int, u: Unit)
    requires m % Factor(u) == 0
    requires forall v :: Factor(v) > Factor(u) ==> m % Factor(v) != 0
    ensures HumanizeDuration(Some(m)) == CountLabel(m / Factor(u), u)
    ensures m / Factor(u) * Factor(u) == m
  {
    HumanizeUnitIs(m, u);
    ExactDivision(m, Factor(u));
  }

  /** The unit characterised by divisibility is the one HumanizeUnit picks. */
  lemma HumanizeUnitIs(m: int, u: Unit)
    requires m % Factor(u) == 0
    requires forall v :: Factor(v) > Factor(u) ==> m % Factor(v) != 0
    ensures HumanizeUnit(m) == u
  {
    match u
    case Week =>
    case Day =>
      assert Factor(Week) > Factor(Day);
    case Hour =>
      assert Factor(Week) > Factor(Hour) && Factor(Day) > Factor(Hour);
    case Minute =>
      assert Factor(Week) > Factor(Minute) && Factor(Day) > Factor(Minute);
      assert Factor(Hour) > Factor(Minute);
  }

  lemma ExactDivision(m: int, f: int)
    requires f > 0 && m % f == 0
    ensures m / f * f == m
  {
  }

  /** The label is singular exactly when the count is 1. */
  lemma CountLabelSingular(q: int, u: Unit)
    ensures CountLabel(q, u)[|CountLabel(q, u)| - 1] == 's' <==> q != 1
  {
    var w := UnitWord(u);
    assert w[|w| - 1] != 's';
  }

  /** Every duration n weeks long, as parseDuration reads "<n>w", is a
      multiple of a week and humanizes as n weeks. */
  lemma {:induction false} WeeksHumanizeAsWeeks(ds: string, ws: string, c: char)
    requires ds != [] && AllDigits(ds) && AllWhitespace(ws) && UnitOf(c) == Some(Week)
    ensures var r := ParseDuration(Some(ds + ws + [c]));
      && r == Some(DigitsValue(ds) * MinutesPerWeek)
      && r.value % MinutesPerWeek == 0
      && HumanizeDuration(r) == CountLabel(DigitsValue(ds), Week)
  {
    ParseDurationValue(ds, ws, c);
    HumanizeWeeks(DigitsValue(ds));
  }

  lemma HumanizeWeeks(n: int)
    ensures (n * MinutesPerWeek) % MinutesPerWeek == 0
    ensures HumanizeDuration(Some(n * MinutesPerWeek)) == CountLabel(n, Week)
  {
    var m := n * MinutesPerWeek;
    assert m % MinutesPerWeek == 0 && m / MinutesPerWeek == n;
    assert HumanizeUnit(m) == Week;
  }

  /** Zero is divisible by a week, so it renders as "0 semanas". */
  lemma HumanizeZero()
    ensures HumanizeDuration(Some(0)) == "0 semanas"
    ensures HumanizeDuration(None) == "-"
  {
  }

  /** Round trip: writing humanizeDuration's count and unit in the compact
      input form "<count><letter>" parses back to the same minutes. */
  lemma HumanizeCompactRoundTrip(m: nat)
    ensures var u := HumanizeUnit(m);
      ParseDuration(Some(NatToString(m / Factor(u)) + [Letter(u)])) == Some(m)
  {
    var u := HumanizeUnit(m);
    var digits := NatToString(m / Factor(u));
    HumanizeUsesLargestDividingUnit(m, u);
    ParseDurationValue(digits, "", Letter(u));
    assert digits + "" + [Letter(u)] == digits + [Letter(u)];
  }

  /** humanizeDuration's Spanish text is never accepted by parseDuration: it
      ends in 's', 'a' or 'o', never in a unit letter. */
  lemma HumanizeTextDoesNotParse(minutes: Option<int>)
    ensures ParseDuration(Some(HumanizeDuration(minutes))) == None
  {
    var s := HumanizeDuration(minutes);
    ParseDurationShape(s);
    if minutes.Some? {
      var u := HumanizeUnit(minutes.value);
      var q := minutes.value / Factor(u);
      var w := UnitWord(u);
      assert s == IntToString(q) + " " + w + (if q == 1 then "" else "s");
      assert s[|s| - 1] == (if q == 1 then w[|w| - 1] else 's');
    }
  }
}
