/** `steam_date_to_postgres_date`: the release-date text shown on a Steam
    store page, in one of three display forms, turned into an ISO 8601
    complete calendar date in extended format, `YYYY-MM-DD` (ISO 8601:2004,
    section 4.1.2.2), or None when the text is in none of the forms. */
module Dates {
  import opened Common
  import opened Text

  datatype Date = Date(year: nat, month: nat, day: nat)

  predicate IsLeapYear(y: nat)
  {
    y % 4 == 0 && (y % 100 != 0 || y % 400 == 0)
  }

  function DaysInMonth(y: nat, m: nat): nat
    requires 1 <= m <= 12
  {
    if m == 2 then (if IsLeapYear(y) then 29 else 28)
    else if m == 4 || m == 6 || m == 9 || m == 11 then 30
    else 31
  }

  /** The dates Python's `datetime` accepts (years 1 to 9999). */
  predicate ValidDate(d: Date)
  {
    1 <= d.year <= 9999 && 1 <= d.month <= 12 && 1 <= d.day <= DaysInMonth(d.year, d.month)
  }

  /** English month abbreviations, as `%b` writes them. */
  function MonthAbbreviation(m: nat): string
    requires 1 <= m <= 12
  {
    ["Jan", "Feb", "Mar", "Apr", "May", "Jun", "Jul", "Aug", "Sep", "Oct", "Nov", "Dec"][m - 1]
  }

  // ---------------------------------------------------------------------
  // Directives of the strptime formats

  /** `%b`: an English month abbreviation. */
  function MonthOf(t: string): (r: Option<nat>)
    ensures r.Some? ==> 1 <= r.value <= 12 && t == MonthAbbreviation(r.value)
  {
    if t == "Jan" then Some(1) else if t == "Feb" then Some(2)
    else if t == "Mar" then Some(3) else if t == "Apr" then Some(4)
    else if t == "May" then Some(5) else if t == "Jun" then Some(6)
    else if t == "Jul" then Some(7) else if t == "Aug" then Some(8)
    else if t == "Sep" then Some(9) else if t == "Oct" then Some(10)
    else if t == "Nov" then Some(11) else if t == "Dec" then Some(12)
    else None
  }

  /** `%d`: one digit 1-9, or two digits 01-31. */
  function DayOf(t: string): (r: Option<nat>)
    ensures r.Some? ==> 1 <= r.value <= 31
  {
    if 1 <= |t| <= 2 && AllDigits(t) && 1 <= DigitsValue(t) <= 31 then Some(DigitsValue(t))
    else None
  }

  /** `%Y`: exactly four digits, so the text is its year padded to four. */
  function YearOf(t: string): (r: Option<nat>)
    ensures r.Some? ==> r.value <= 9999 && t == Pad4(r.value)
  {
    if |t| == 4 && AllDigits(t) then
      Pad4OfDigits(t);
      Some(DigitsValue(t))
    else None
  }

  /** `Qn` to the first month of that quarter; other labels miss the
      dictionary (KeyError). */
  function QuarterStart(t: string): (r: Option<nat>)
    ensures r.Some? ==> 1 <= r.value <= 10 && r.value % 3 == 1 && t == ['Q', DigitChar((r.value + 2) / 3)]
  {
    if t == "Q1" then Some(1) else if t == "Q2" then Some(4)
    else if t == "Q3" then Some(7) else if t == "Q4" then Some(10)
    else None
  }

  /** The text starts and ends with a non-space, as an anchored strptime
      pattern that starts and ends with a directive matching no whitespace
      demands. */
  predicate Trimmed(s: string)
  {
    |s| > 0 && !IsSpace(s[0]) && !IsSpace(s[|s| - 1])
  }

  function Checked(d: Date): (r: Option<Date>)
    ensures r.Some? ==> ValidDate(r.value)
  {
    if ValidDate(d) then Some(d) else None
  }

  // ---------------------------------------------------------------------
  // The three attempts, in the order the source makes them

  /** The words spell the date as "D Mon, YYYY": a day `%d` reads as its
      day, the month's abbreviation with a comma, and the year padded to
      four digits. */
  predicate SpellsDayMonthYear(ws: seq<string>, d: Date)
  {
    ValidDate(d) && |ws| == 3 && DayOf(ws[0]) == Some(d.day)
    && ws[1] == MonthAbbreviation(d.month) + "," && ws[2] == Pad4(d.year)
  }

  /** The words spell the first of a month as "Mon YYYY". */
  predicate SpellsMonthYear(ws: seq<string>, d: Date)
  {
    ValidDate(d) && d.day == 1 && ws == [MonthAbbreviation(d.month), Pad4(d.year)]
  }

  /** The words spell the first day of a quarter as "Qn YYYY". */
  predicate SpellsQuarter(ws: seq<string>, d: Date)
  {
    ValidDate(d) && d.day == 1 && d.month % 3 == 1
    && ws == [['Q', DigitChar((d.month + 2) / 3)], Pad4(d.year)]
  }

  /** The words that spell a date give back its day, month and year. */
  lemma SpelledDayMonthYear(ws: seq<string>, d: Date)
    requires SpellsDayMonthYear(ws, d)
    ensures ws[1][|ws[1]| - 1] == ','
    ensures MonthOf(ws[1][..|ws[1]| - 1]) == Some(d.month) && YearOf(ws[2]) == Some(d.year)
  {
    assert ws[1][..|ws[1]| - 1] == MonthAbbreviation(d.month);
    MonthOfAbbreviation(d.month);
    YearOfPad4(d.year);
  }

  /** The first month of each quarter is what its label maps to. */
  lemma QuarterLabel(m: nat)
    requires 1 <= m <= 12 && m % 3 == 1
    ensures QuarterStart(['Q', DigitChar((m + 2) / 3)]) == Some(m)
  {
    assert m == 1 || m == 4 || m == 7 || m == 10;
  }

  /** `%d %b, %Y` on a text that starts and ends with a non-space: each
      space of the format matches a run of whitespace, so the text is three
      words, the day, the month with its comma, and the year. It gives a
      date exactly when its words spell that date. */
  function DayMonthYearWords(s: string): (r: Option<Date>)
    ensures r.Some? ==> Trimmed(s) && SpellsDayMonthYear(Words(s), r.value)
    ensures forall d :: Trimmed(s) && SpellsDayMonthYear(Words(s), d) ==> r == Some(d)
  {
    var ws := Words(s);
    assert forall d :: Trimmed(s) && SpellsDayMonthYear(ws, d) ==>
        (|ws| == 3 && ws[1][|ws[1]| - 1] == ','
         && MonthOf(ws[1][..|ws[1]| - 1]) == Some(d.month) && YearOf(ws[2]) == Some(d.year)) by {
      forall d | Trimmed(s) && SpellsDayMonthYear(ws, d)
        ensures ws[1][|ws[1]| - 1] == ',' && MonthOf(ws[1][..|ws[1]| - 1]) == Some(d.month) && YearOf(ws[2]) == Some(d.year)
      {
        SpelledDayMonthYear(ws, d);
      }
    }
    if !Trimmed(s) || |ws| != 3 || ws[1][|ws[1]| - 1] != ',' then None
    else
      assert ws[1] == ws[1][..|ws[1]| - 1] + ",";
      match (DayOf(ws[0]), MonthOf(ws[1][..|ws[1]| - 1]), YearOf(ws[2]))
      case (Some(d), Some(m), Some(y)) => Checked(Date(y, m, d))
      case _ => None
  }

  /** The layouts `strptime(s, "%d %b, %Y")` admits: the pattern is
      anchored at both ends and only `%d` can match whitespace, by its
      alternative ` [1-9]`, a single space before a lone digit. */
  predicate DayMonthYearLayout(s: string)
  {
    Trimmed(s) || (|s| > 0 && s[0] == ' ' && Trimmed(s[1..]) && |Words(s[1..])| > 0 && |Words(s[1..])[0]| == 1)
  }

  /** `strptime(s, "%d %b, %Y")`: a date exactly when the text is laid out
      as the pattern admits and its words spell that date. */
  function ParseDayMonthYear(s: string): (r: Option<Date>)
    ensures r.Some? ==> DayMonthYearLayout(s) && SpellsDayMonthYear(Words(s), r.value)
    ensures forall d :: DayMonthYearLayout(s) && SpellsDayMonthYear(Words(s), d) ==> r == Some(d)
  {
    if |s| > 0 && s[0] == ' ' then
      var rest := s[1..];
      assert Words(s) == Words(rest);
      if |Words(rest)| > 0 && |Words(rest)[0]| == 1 then DayMonthYearWords(rest) else None
    else DayMonthYearWords(s)
  }

  /** `strptime(s, "%b %Y")`: a date exactly when the text starts and ends
      with a non-space and its two words spell the first of that month. */
  function ParseMonthYear(s: string): (r: Option<Date>)
    ensures r.Some? ==> Trimmed(s) && SpellsMonthYear(Words(s), r.value)
    ensures forall d :: Trimmed(s) && SpellsMonthYear(Words(s), d) ==> r == Some(d)
  {
    var ws := Words(s);
    assert forall d :: SpellsMonthYear(ws, d) ==> MonthOf(ws[0]) == Some(d.month) && YearOf(ws[1]) == Some(d.year) by {
      forall d | SpellsMonthYear(ws, d)
        ensures MonthOf(ws[0]) == Some(d.month) && YearOf(ws[1]) == Some(d.year)
      {
        MonthOfAbbreviation(d.month);
        YearOfPad4(d.year);
      }
    }
    if !Trimmed(s) || |ws| != 2 then None
    else
      assert ws == [ws[0], ws[1]];
      match (MonthOf(ws[0]), YearOf(ws[1]))
      case (Some(m), Some(y)) => Checked(Date(y, m, 1))
      case _ => None
  }

  /** `quarter, year = s.split()` then `strptime(f"{year}-{m:02d}-01",
      "%Y-%m-%d")`: a date exactly when the text is two words, a known
      quarter label and a year of four digits, spelling the first day of
      that quarter. */
  function ParseQuarter(s: string): (r: Option<Date>)
    ensures r.Some? ==> SpellsQuarter(Words(s), r.value)
    ensures forall d :: SpellsQuarter(Words(s), d) ==> r == Some(d)
  {
    var ws := Words(s);
    assert forall d :: SpellsQuarter(ws, d) ==> QuarterStart(ws[0]) == Some(d.month) && YearOf(ws[1]) == Some(d.year) by {
      forall d | SpellsQuarter(ws, d)
        ensures QuarterStart(ws[0]) == Some(d.month) && YearOf(ws[1]) == Some(d.year)
      {
        QuarterLabel(d.month);
        YearOfPad4(d.year);
      }
    }
    if |ws| != 2 then None
    else
      assert ws == [ws[0], ws[1]];
      match (QuarterStart(ws[0]), YearOf(ws[1]))
      case (Some(m), Some(y)) => Checked(Date(y, m, 1))
      case _ => None
  }

  /** A month name has three letters and a quarter label two, so no text
      is both a month-and-year and a quarter-and-year. */
  lemma MonthYearIsNoQuarter(s: string)
    ensures !(ParseMonthYear(s).Some? && ParseQuarter(s).Some?)
  {
    if ParseMonthYear(s).Some? {
      MonthOfAbbreviation(ParseMonthYear(s).value.month);
    }
  }

  /** The first of the three attempts that succeeds. No text matches two of
      the forms (three words against two; a month name against a quarter
      label), so the result is the date of the one form that matched. */
  function ParseSteamDate(s: string): (r: Option<Date>)
    ensures r.Some? ==> ValidDate(r.value)
    ensures r.Some? <==> ParseDayMonthYear(s).Some? || ParseMonthYear(s).Some? || ParseQuarter(s).Some?
    ensures ParseDayMonthYear(s).Some? ==> r == ParseDayMonthYear(s) && ParseMonthYear(s).None? && ParseQuarter(s).None?
    ensures ParseMonthYear(s).Some? ==> r == ParseMonthYear(s) && ParseQuarter(s).None?
    ensures ParseQuarter(s).Some? ==> r == ParseQuarter(s) && ParseMonthYear(s).None?
  {
    MonthYearIsNoQuarter(s);
    var full := ParseDayMonthYear(s);
    if full.Some? then full
    else
      var monthYear := ParseMonthYear(s);
      if monthYear.Some? then monthYear else ParseQuarter(s)
  }

  // ---------------------------------------------------------------------
  // Output: strftime("%Y-%m-%d")

  function Pad2(n: nat): (s: string)
    requires n < 100
    ensures |s| == 2 && AllDigits(s)
  {
    [DigitChar(n / 10), DigitChar(n % 10)]
  }

  function Pad4(n: nat): (s: string)
    requires n < 10000
    ensures |s| == 4 && AllDigits(s)
  {
    Pad2(n / 100) + Pad2(n % 100)
  }

  lemma Pad2OfDigits(t: string)
    requires |t| == 2 && AllDigits(t)
    ensures DigitsValue(t) < 100 && Pad2(DigitsValue(t)) == t
  {
    DigitsValue2(t);
    var v := DigitsValue(t);
    assert v / 10 == DigitValue(t[0]) && v % 10 == DigitValue(t[1]);
  }

  /** Four digits are the padded rendering of their value. */
  lemma Pad4OfDigits(t: string)
    requires |t| == 4 && AllDigits(t)
    ensures DigitsValue(t) < 10000 && Pad4(DigitsValue(t)) == t
  {
    var hi, lo := t[..2], t[2..];
    assert t == hi + lo;
    DigitsValueAppend2(hi, lo);
    Pad2OfDigits(hi);
    Pad2OfDigits(lo);
    HundredsSplit(DigitsValue(hi), DigitsValue(lo));
  }

  lemma HundredsSplit(hi: nat, lo: nat)
    requires hi < 100 && lo < 100
    ensures hi * 100 + lo < 10000
    ensures (hi * 100 + lo) / 100 == hi && (hi * 100 + lo) % 100 == lo
  {
  }

  function IsoDate(d: Date): string
    requires ValidDate(d)
  {
    Pad4(d.year) + "-" + Pad2(d.month) + "-" + Pad2(d.day)
  }

  /** A well-formed ISO 8601 extended complete calendar date naming a real
      day. */
  predicate IsIsoCalendarDate(t: string)
  {
    && |t| == 10 && t[4] == '-' && t[7] == '-'
    && AllDigits(t[..4]) && AllDigits(t[5..7]) && AllDigits(t[8..])
    && ValidDate(Date(DigitsValue(t[..4]), DigitsValue(t[5..7]), DigitsValue(t[8..])))
  }

  /** The reading of an ISO date text as a date. */
  function ReadIsoDate(t: string): Date
    requires IsIsoCalendarDate(t)
  {
    Date(DigitsValue(t[..4]), DigitsValue(t[5..7]), DigitsValue(t[8..]))
  }

  lemma DigitsValue2(t: string)
    requires |t| == 2 && AllDigits(t)
    ensures DigitsValue(t) == DigitValue(t[0]) * 10 + DigitValue(t[1])
  {
    assert t[..1][..0] == [];
    assert DigitsValue(t[..1]) == DigitValue(t[0]);
  }

  /** Two more digits at the end multiply the value by a hundred. */
  lemma DigitsValueAppend2(a: string, b: string)
    requires |b| == 2 && AllDigits(a) && AllDigits(b)
    ensures AllDigits(a + b)
    ensures DigitsValue(a + b) == DigitsValue(a) * 100 + DigitsValue(b)
  {
    var s := a + b;
    assert s[..|s| - 1] == a + [b[0]];
    assert (a + [b[0]])[..|a|] == a;
    DigitsValue2(b);
  }

  lemma Pad2Value(n: nat)
    requires n < 100
    ensures DigitsValue(Pad2(n)) == n
  {
    DigitsValue2(Pad2(n));
  }

  lemma Pad4Value(n: nat)
    requires n < 10000
    ensures DigitsValue(Pad4(n)) == n
  {
    DigitsValueAppend2(Pad2(n / 100), Pad2(n % 100));
    Pad2Value(n / 100);
    Pad2Value(n % 100);
  }

  /** Formatting a date and reading it back gives the date. */
  lemma IsoDateRoundTrip(d: Date)
    requires ValidDate(d)
    ensures IsIsoCalendarDate(IsoDate(d)) && ReadIsoDate(IsoDate(d)) == d
  {
    var y, m, dd := Pad4(d.year), Pad2(d.month), Pad2(d.day);
    var t := IsoDate(d);
    assert t == y + "-" + m + "-" + dd;
    assert t[..4] == y;
    assert t[5..7] == m;
    assert t[8..] == dd;
    Pad4Value(d.year);
    Pad2Value(d.month);
    Pad2Value(d.day);
  }

  /** `steam_date_to_postgres_date`: whatever it returns is a well-formed
      ISO calendar date; None exactly when no form matched. */
  function SteamDateToPostgresDate(s: string): (r: Option<string>)
    ensures r.Some? <==> ParseSteamDate(s).Some?
    ensures r.Some? ==> IsIsoCalendarDate(r.value) && ReadIsoDate(r.value) == ParseSteamDate(s).value
  {
    match ParseSteamDate(s)
    case Some(d) => IsoDateRoundTrip(d); Some(IsoDate(d))
    case None => None
  }

  // ---------------------------------------------------------------------
  // The display forms Steam uses, and the parser inverting each of them

  /** "5 Mar, 2021", for any day number a month can be shown with. */
  function SteamFullDate(d: Date): string
    requires 1 <= d.day <= 31 && 1 <= d.month <= 12 && d.year <= 9999
  {
    NatToString(d.day) + " " + (MonthAbbreviation(d.month) + ",") + " " + Pad4(d.year)
  }

  /** "Mar 2021". */
  function SteamMonthYear(year: nat, month: nat): string
    requires year <= 9999 && 1 <= month <= 12
  {
    MonthAbbreviation(month) + " " + Pad4(year)
  }

  /** "Q3 2021". */
  function SteamQuarter(quarter: nat, year: nat): string
    requires 1 <= quarter <= 4 && year <= 9999
  {
    "Q" + NatToString(quarter) + " " + Pad4(year)
  }

  lemma DigitsAreNotSpaces(t: string)
    requires AllDigits(t)
    ensures SpaceFree(t)
  {
  }

  lemma YearOfPad4(y: nat)
    requires y <= 9999
    ensures YearOf(Pad4(y)) == Some(y)
  {
    Pad4Value(y);
  }

  lemma DayOfString(d: nat)
    requires 1 <= d <= 31
    ensures DayOf(NatToString(d)) == Some(d)
  {
    NatToStringRoundTrip(d);
  }

  lemma MonthOfAbbreviation(m: nat)
    requires 1 <= m <= 12
    ensures MonthOf(MonthAbbreviation(m)) == Some(m)
    ensures |MonthAbbreviation(m)| == 3 && SpaceFree(MonthAbbreviation(m) + ",")
    ensures QuarterStart(MonthAbbreviation(m)) == None
  {
  }

  /** "D Mon, YYYY" gives that day, month and year; a day the month does
      not have (or year 0) gives None. */
  lemma FullDateParses(d: Date)
    requires 1 <= d.day <= 31 && 1 <= d.month <= 12 && d.year <= 9999
    ensures SteamDateToPostgresDate(SteamFullDate(d)) == if ValidDate(d) then Some(IsoDate(d)) else None
  {
    var day, mon, year := NatToString(d.day), MonthAbbreviation(d.month) + ",", Pad4(d.year);
    var s := SteamFullDate(d);
    DigitsAreNotSpaces(day);
    DigitsAreNotSpaces(year);
    MonthOfAbbreviation(d.month);
    assert s == day + " " + (mon + " " + year);
    WordsCons(day, mon + " " + year);
    WordsCons(mon, year);
    WordsSingle(year);
    assert Words(s) == [day, mon, year];
    assert mon[..|mon| - 1] == MonthAbbreviation(d.month);
    DayOfString(d.day);
    YearOfPad4(d.year);
    assert Trimmed(s);
    assert ParseDayMonthYear(s) == Checked(d);
    assert !ValidDate(d) ==> ParseMonthYear(s) == None && ParseQuarter(s) == None;
  }

  /** A day below 10 may also be written with a leading zero. */
  lemma ZeroPaddedDayParses(d: Date)
    requires ValidDate(d) && d.day < 10
    ensures ParseSteamDate(['0', DigitChar(d.day)] + " " + (MonthAbbreviation(d.month) + ",") + " " + Pad4(d.year)) == Some(d)
  {
    var mon, year := MonthAbbreviation(d.month) + ",", Pad4(d.year);
    MonthOfAbbreviation(d.month);
    DigitsAreNotSpaces(year);
    WordsCons(mon, year);
    WordsSingle(year);
    var padded := ['0', DigitChar(d.day)];
    assert DayOf(padded) == Some(d.day) by { DigitsValue2(padded); }
    var s := padded + " " + mon + " " + year;
    assert s == padded + " " + (mon + " " + year);
    WordsCons(padded, mon + " " + year);
    assert Trimmed(s) && SpellsDayMonthYear(Words(s), d);
    assert ParseDayMonthYear(s) == Some(d);
  }

  /** A day below 10 may also follow a single leading space. */
  lemma LeadingSpaceDayParses(d: Date)
    requires ValidDate(d) && d.day < 10
    ensures ParseSteamDate(" " + [DigitChar(d.day)] + " " + (MonthAbbreviation(d.month) + ",") + " " + Pad4(d.year)) == Some(d)
  {
    var mon, year := MonthAbbreviation(d.month) + ",", Pad4(d.year);
    MonthOfAbbreviation(d.month);
    DigitsAreNotSpaces(year);
    WordsCons(mon, year);
    WordsSingle(year);
    var lone := [DigitChar(d.day)];
    assert DayOf(lone) == Some(d.day) by {
      assert AllDigits(lone) && lone[..|lone| - 1] == [];
      assert DigitsValue(lone) == DigitValue(lone[0]);
    }
    var t := " " + lone + " " + mon + " " + year;
    var rest := lone + " " + (mon + " " + year);
    assert t[1..] == rest;
    WordsCons(lone, mon + " " + year);
    assert Words(t) == Words(rest);
    assert DayMonthYearLayout(t) && SpellsDayMonthYear(Words(t), d);
    assert ParseDayMonthYear(t) == Some(d);
  }

  /** Runs of whitespace between the words are read as one space. */
  lemma WideMonthYearParses(d: Date)
    requires ValidDate(d) && d.day == 1
    ensures ParseSteamDate(MonthAbbreviation(d.month) + "  " + Pad4(d.year)) == Some(d)
  {
    var mon, year := MonthAbbreviation(d.month), Pad4(d.year);
    var s := mon + "  " + year;
    MonthOfAbbreviation(d.month);
    DigitsAreNotSpaces(year);
    assert s == mon + " " + (" " + year);
    WordsCons(mon, " " + year);
    assert (" " + year)[1..] == year;
    WordsSingle(year);
    assert Words(s) == [mon, year];
    assert Trimmed(s) && SpellsMonthYear(Words(s), d);
  }

  /** "Mon YYYY" gives the first day of that month (None for year 0). */
  lemma MonthYearParses(year: nat, month: nat)
    requires year <= 9999 && 1 <= month <= 12
    ensures SteamDateToPostgresDate(SteamMonthYear(year, month)) ==
      if year >= 1 then Some(IsoDate(Date(year, month, 1))) else None
  {
    var mon, y := MonthAbbreviation(month), Pad4(year);
    var s := SteamMonthYear(year, month);
    MonthOfAbbreviation(month);
    DigitsAreNotSpaces(y);
    WordsCons(mon, y);
    WordsSingle(y);
    assert Words(s) == [mon, y];
    YearOfPad4(year);
    assert Trimmed(s);
    assert ParseDayMonthYear(s) == None;
    assert ParseMonthYear(s) == Checked(Date(year, month, 1));
    assert QuarterStart(mon) == None;
  }

  /** "Qn YYYY" gives the first day of month 1, 4, 7 or 10 (None for
      year 0). */
  lemma QuarterParses(quarter: nat, year: nat)
    requires 1 <= quarter <= 4 && year <= 9999
    ensures SteamDateToPostgresDate(SteamQuarter(quarter, year)) ==
      if year >= 1 then Some(IsoDate(Date(year, 3 * quarter - 2, 1))) else None
  {
    var q, y := "Q" + NatToString(quarter), Pad4(year);
    var s := SteamQuarter(quarter, year);
    assert q == "Q" + [DigitChar(quarter)];
    assert SpaceFree(q);
    assert QuarterStart(q) == Some(3 * quarter - 2) by {
      if quarter == 1 { assert q == "Q1"; }
      else if quarter == 2 { assert q == "Q2"; }
      else if quarter == 3 { assert q == "Q3"; }
      else { assert q == "Q4"; }
    }
    DigitsAreNotSpaces(y);
    WordsCons(q, y);
    WordsSingle(y);
    assert Words(s) == [q, y];
    YearOfPad4(year);
    assert MonthOf(q) == None;
    assert ParseDayMonthYear(s) == None;
    assert ParseMonthYear(s) == None;
    assert ParseQuarter(s) == Checked(Date(year, 3 * quarter - 2, 1));
  }

  /** A text of any other number of words matches none of the forms. */
  lemma OtherWordCountsGiveNone(s: string)
    requires |Words(s)| != 2 && |Words(s)| != 3
    ensures SteamDateToPostgresDate(s) == None
  {
  }

  /** Two words whose first is neither a month abbreviation nor a quarter
      label match none of the forms. */
  lemma OtherLabelsGiveNone(s: string)
    requires |Words(s)| == 2
    requires MonthOf(Words(s)[0]) == None && QuarterStart(Words(s)[0]) == None
    ensures SteamDateToPostgresDate(s) == None
  {
  }
}
