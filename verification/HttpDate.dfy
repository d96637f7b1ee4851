/** The three textual forms of a date in HTTP (section 5.6.7 of RFC 9110): printing the preferred one and parsing
    all three. */
module HttpDate {
  import opened Wrappers
  import opened Calendar

  const MONTH_NAMES: seq<string> :=
    ["Jan", "Feb", "Mar", "Apr", "May", "Jun", "Jul", "Aug", "Sep", "Oct", "Nov", "Dec"]
  const DAY_NAMES: seq<string> := ["Mon", "Tue", "Wed", "Thu", "Fri", "Sat", "Sun"]
  const LONG_DAY_NAMES: seq<string> :=
    ["Monday, ", "Tuesday, ", "Wednesday, ", "Thursday, ", "Friday, ", "Saturday, ", "Sunday, "]

  // ---- Digits ----

  function Digit(n: nat): char
    requires n < 10
  {
    ('0' as int + n) as char
  }

  function Two(n: nat): string
    requires n < 100
  {
    [Digit(n / 10), Digit(n % 10)]
  }

  function Four(n: nat): string
    requires n < 10000
  {
    [Digit(n / 1000), Digit(n / 100 % 10), Digit(n / 10 % 10), Digit(n % 10)]
  }

  /** The byte minus the byte of zero, wrapping around below zero. */
  function Value(c: char): nat {
    if c >= '0' then c as int - '0' as int else c as int + 256 - '0' as int
  }

  function ToInt1(c: char): Option<nat> {
    if Value(c) < 10 then Some(Value(c)) else None
  }

  function ToInt2(s: string): Option<nat>
    requires |s| == 2
  {
    if Value(s[0]) < 10 && Value(s[1]) < 10 then Some(Value(s[0]) * 10 + Value(s[1])) else None
  }

  function ToInt4(s: string): Option<nat>
    requires |s| == 4
  {
    if Value(s[0]) < 10 && Value(s[1]) < 10 && Value(s[2]) < 10 && Value(s[3]) < 10 then
      Some(Value(s[0]) * 1000 + Value(s[1]) * 100 + Value(s[2]) * 10 + Value(s[3]))
    else
      None
  }

  lemma OneDigit(c: char, n: nat)
    ensures ToInt1(c) == Some(n) <==> n < 10 && c == Digit(n)
  {
  }

  /** Reading two digits inverts writing them, and accepts nothing else. */
  lemma TwoDigits(s: string, n: nat)
    requires |s| == 2
    ensures ToInt2(s) == Some(n) <==> n < 100 && s == Two(n)
  {
    OneDigit(s[0], Value(s[0]));
    OneDigit(s[1], Value(s[1]));
    if n < 100 {
      OneDigit(s[0], n / 10);
      OneDigit(s[1], n % 10);
    }
  }

  lemma DigitsAddUp(n: nat)
    requires n < 10000
    ensures n / 1000 < 10
    ensures n / 1000 * 1000 + n / 100 % 10 * 100 + n / 10 % 10 * 10 + n % 10 == n
  {
    assert n / 100 == n / 1000 * 10 + n / 100 % 10;
    assert n / 10 == n / 100 * 10 + n / 10 % 10;
  }

  lemma DigitsBack(a: nat, b: nat, c: nat, e: nat)
    requires a < 10 && b < 10 && c < 10 && e < 10
    ensures var n := a * 1000 + b * 100 + c * 10 + e;
            n < 10000 && n / 1000 == a && n / 100 % 10 == b && n / 10 % 10 == c && n % 10 == e
  {
    var n := a * 1000 + b * 100 + c * 10 + e;
    assert n / 10 == a * 100 + b * 10 + c;
    assert n / 100 == a * 10 + b;
  }

  lemma FourRead(n: nat)
    requires n < 10000
    ensures ToInt4(Four(n)) == Some(n)
  {
    DigitsAddUp(n);
    var a, b, c, e := n / 1000, n / 100 % 10, n / 10 % 10, n % 10;
    OneDigit(Digit(a), a);
    OneDigit(Digit(b), b);
    OneDigit(Digit(c), c);
    OneDigit(Digit(e), e);
  }

  lemma FourUnique(s: string)
    requires |s| == 4 && ToInt4(s).Some?
    ensures ToInt4(s).value < 10000 && s == Four(ToInt4(s).value)
  {
    var a, b, c, e := Value(s[0]), Value(s[1]), Value(s[2]), Value(s[3]);
    DigitsBack(a, b, c, e);
    OneDigit(s[0], a);
    OneDigit(s[1], b);
    OneDigit(s[2], c);
    OneDigit(s[3], e);
    assert s == [Digit(a), Digit(b), Digit(c), Digit(e)];
  }

  lemma FourDigits(s: string, n: nat)
    requires |s| == 4
    ensures ToInt4(s) == Some(n) <==> n < 10000 && s == Four(n)
  {
    if n < 10000 {
      FourRead(n);
    }
    if ToInt4(s).Some? {
      FourUnique(s);
    }
  }

  // ---- Names ----

  /** The position, counted from 1, of the name that the text is between the two marks. */
  function FindName(names: seq<string>, before: string, after: string, s: string, i: nat): Option<nat>
    requires i <= |names|
    decreases |names| - i
  {
    if i == |names| then None
    else if s == before + names[i] + after then Some(i + 1)
    else FindName(names, before, after, s, i + 1)
  }

  predicate Distinct(names: seq<string>) {
    && (forall i :: 0 <= i < |names| ==> |names[i]| == 3)
    && (forall i, j :: 0 <= i < j < |names| ==> names[i] != names[j])
  }

  lemma NamesAreDistinct()
    ensures Distinct(MONTH_NAMES) && Distinct(DAY_NAMES)
  {
  }

  lemma SameBetweenMarks(before: string, a: string, b: string, after: string)
    requires |a| == |b|
    ensures before + a + after == before + b + after ==> a == b
  {
    var n := |before|;
    assert (before + a + after)[n..n + |a|] == a && (before + b + after)[n..n + |b|] == b;
  }

  lemma {:induction false} FoundName(
    names: seq<string>, before: string, after: string, s: string, i: nat, m: nat)
    requires Distinct(names) && i <= |names|
    ensures FindName(names, before, after, s, i) == Some(m) <==>
            i < m <= |names| && s == before + names[m - 1] + after
    decreases |names| - i
  {
    if i < |names| {
      FoundName(names, before, after, s, i + 1, m);
      if i + 1 < m <= |names| {
        SameBetweenMarks(before, names[m - 1], names[i], after);
      }
    }
  }

  // ---- Printing ----

  /** The ranges that every date has whose fields came from text or from the clock. */
  predicate Printable(d: DateTime) {
    d.sec < 100 && d.min < 100 && d.hr < 100 && d.day < 100 && 1 <= d.mon <= 12 && d.year < 10000 && 1 <= d.wday <= 7
  }

  lemma NameLengths(d: DateTime)
    requires Printable(d)
    ensures |DAY_NAMES[d.wday - 1]| == 3 && |MONTH_NAMES[d.mon - 1]| == 3
  {
  }

  function Clock(hr: nat, min: nat, sec: nat): (r: string)
    requires hr < 100 && min < 100 && sec < 100
    ensures |r| == 8
  {
    Two(hr) + [':'] + Two(min) + [':'] + Two(sec)
  }

  /** The preferred form, such as `Sun, 06 Nov 1994 08:49:37 GMT`. */
  function Print(d: DateTime): (r: string)
    requires Printable(d)
    ensures |r| == 29
  {
    NameLengths(d);
    (DAY_NAMES[d.wday - 1] + ", ") + Two(d.day) + (" " + MONTH_NAMES[d.mon - 1] + " ") + Four(d.year) + [' '] +
    Clock(d.hr, d.min, d.sec) + " GMT"
  }

  /** The obsolete form with a two-digit year, such as `Sunday, 06-Nov-94 08:49:37 GMT`, with any byte between the
      date and the time. */
  function Rfc850(d: DateTime, gap: char): string
    requires Printable(d)
  {
    LONG_DAY_NAMES[d.wday - 1] + Rfc850Rest(d, gap)
  }

  function Rfc850Rest(d: DateTime, gap: char): (r: string)
    requires Printable(d)
    ensures |r| == 22
  {
    NameLengths(d);
    Two(d.day) + ("-" + MONTH_NAMES[d.mon - 1] + "-") + Two(d.year % 100) + [gap] +
    Clock(d.hr, d.min, d.sec) + " GMT"
  }

  /** The form of the C library, such as `Sun Nov  6 08:49:37 1994`, with a chosen byte in front of a day below
      ten. */
  function Asctime(d: DateTime, pad: char): (r: string)
    requires Printable(d)
    ensures |r| == 24
  {
    NameLengths(d);
    (DAY_NAMES[d.wday - 1] + " ") + (MONTH_NAMES[d.mon - 1] + " ") + PaddedDay(d, pad) + [' '] +
    Clock(d.hr, d.min, d.sec) + [' '] + Four(d.year)
  }

  function PaddedDay(d: DateTime, pad: char): (r: string)
    requires Printable(d)
    ensures |r| == 2
  {
    if d.day < 10 then [pad, Digit(d.day)] else Two(d.day)
  }

  /** The fixed places of the fields in the preferred form. */
  predicate ImfPlaces(s: string, d: DateTime)
    requires |s| == 29 && Printable(d)
  {
    && s[..5] == DAY_NAMES[d.wday - 1] + ", " && s[5..7] == Two(d.day)
    && s[7..12] == " " + MONTH_NAMES[d.mon - 1] + " " && s[12..16] == Four(d.year) && s[16] == ' '
    && s[17..25] == Clock(d.hr, d.min, d.sec) && s[25..] == " GMT"
  }

  lemma ImfPieces(s: string, d: DateTime)
    requires |s| == 29 && Printable(d)
    ensures s == Print(d) <==> ImfPlaces(s, d)
  {
    NameLengths(d);
    var p := Print(d);
    assert p[..5] == DAY_NAMES[d.wday - 1] + ", ";
    assert p[17..25] == Clock(d.hr, d.min, d.sec);
    assert s == s[..5] + s[5..7] + s[7..12] + s[12..16] + [s[16]] + s[17..25] + s[25..];
  }

  /** The bytes of the preferred form: those of the date with the marks, and those of the clock. */
  predicate DateChars(s: string, w: string, m: string, d: DateTime)
    requires |s| == 29 && |w| == 3 && |m| == 3 && Printable(d)
  {
    && s[0] == w[0] && s[1] == w[1] && s[2] == w[2] && s[3] == ',' && s[4] == ' '
    && s[5] == Digit(d.day / 10) && s[6] == Digit(d.day % 10)
    && s[7] == ' ' && s[8] == m[0] && s[9] == m[1] && s[10] == m[2] && s[11] == ' '
    && s[12] == Digit(d.year / 1000) && s[13] == Digit(d.year / 100 % 10)
    && s[14] == Digit(d.year / 10 % 10) && s[15] == Digit(d.year % 10) && s[16] == ' '
    && s[19] == ':' && s[22] == ':' && s[25] == ' ' && s[26] == 'G' && s[27] == 'M' && s[28] == 'T'
  }

  predicate ClockChars(s: string, d: DateTime)
    requires |s| == 29 && Printable(d)
  {
    && s[17] == Digit(d.hr / 10) && s[18] == Digit(d.hr % 10)
    && s[20] == Digit(d.min / 10) && s[21] == Digit(d.min % 10)
    && s[23] == Digit(d.sec / 10) && s[24] == Digit(d.sec % 10)
  }

  lemma CharsArePlaces(s: string, w: string, m: string, d: DateTime)
    requires |s| == 29 && |w| == 3 && |m| == 3 && Printable(d)
    requires w == DAY_NAMES[d.wday - 1] && m == MONTH_NAMES[d.mon - 1]
    requires DateChars(s, w, m, d) && ClockChars(s, d)
    ensures ImfPlaces(s, d)
  {
    assert s[..5] == w + ", ";
    assert s[17..25] == Clock(d.hr, d.min, d.sec);
  }

  /** A text with part of it overwritten. */
  function Splice(s: string, at: nat, text: string): (r: string)
    requires at + |text| <= |s|
    ensures |r| == |s|
    ensures forall i :: 0 <= i < |s| ==> r[i] == if at <= i < at + |text| then text[i - at] else s[i]
  {
    s[..at] + text + s[at + |text|..]
  }

  /** Overwrites part of a buffer, byte by byte. */
  method Put(buf: array<char>, at: nat, text: string)
    requires at + |text| <= buf.Length
    modifies buf
    ensures buf[..] == Splice(old(buf[..]), at, text)
  {
    for i := 0 to |text|
      invariant buf[..] == Splice(old(buf[..]), at, text[..i])
    {
      buf[at + i] := text[i];
    }
    assert text[..|text|] == text;
  }

  const TEMPLATE: string := "   , 00     0000 00:00:00 GMT"

  /** The fields of the date, and then those of the clock, put into the fixed text. */
  function FillDate(w: string, day: string, m: string, y: string): (r: string)
    requires |w| == 3 && |day| == 2 && |m| == 3 && |y| == 4
    ensures |r| == 29
  {
    Splice(Splice(Splice(Splice(TEMPLATE, 0, w), 5, day), 8, m), 12, y)
  }

  function FillClock(s: string, d: DateTime): (r: string)
    requires |s| == 29 && Printable(d)
    ensures |r| == 29
  {
    Splice(Splice(Splice(s, 17, Two(d.hr)), 20, Two(d.min)), 23, Two(d.sec))
  }

  lemma TemplateMarks()
    ensures var t := TEMPLATE;
            && |t| == 29 && t[3] == ',' && t[4] == ' ' && t[7] == ' ' && t[11] == ' ' && t[16] == ' ' && t[19] == ':'
            && t[22] == ':' && t[25] == ' ' && t[26] == 'G' && t[27] == 'M' && t[28] == 'T'
  {
  }

  lemma FilledDate(w: string, m: string, d: DateTime)
    requires |w| == 3 && |m| == 3 && Printable(d)
    ensures DateChars(FillDate(w, Two(d.day), m, Four(d.year)), w, m, d)
  {
    TemplateMarks();
  }

  lemma FilledClock(s: string, w: string, m: string, d: DateTime)
    requires |s| == 29 && |w| == 3 && |m| == 3 && Printable(d) && DateChars(s, w, m, d)
    ensures DateChars(FillClock(s, d), w, m, d) && ClockChars(FillClock(s, d), d)
  {
  }

  method PutDate(buf: array<char>, w: string, m: string, d: DateTime)
    requires buf.Length == 29 && buf[..] == TEMPLATE && |w| == 3 && |m| == 3 && Printable(d)
    modifies buf
    ensures DateChars(buf[..], w, m, d)
  {
    Put(buf, 0, w);
    Put(buf, 5, Two(d.day));
    Put(buf, 8, m);
    Put(buf, 12, Four(d.year));
    FilledDate(w, m, d);
  }

  method PutClock(buf: array<char>, ghost w: string, ghost m: string, d: DateTime)
    requires buf.Length == 29 && |w| == 3 && |m| == 3 && Printable(d) && DateChars(buf[..], w, m, d)
    modifies buf
    ensures DateChars(buf[..], w, m, d) && ClockChars(buf[..], d)
  {
    FilledClock(buf[..], w, m, d);
    Put(buf, 17, Two(d.hr));
    Put(buf, 20, Two(d.min));
    Put(buf, 23, Two(d.sec));
  }

  /** Printing fills in the fields of a fixed text in place. */
  method Display(d: DateTime) returns (buf: array<char>)
    requires Printable(d)
    ensures fresh(buf) && buf[..] == Print(d)
  {
    var wday, mon := DAY_NAMES[d.wday - 1], MONTH_NAMES[d.mon - 1];
    NameLengths(d);
    buf := new char[29](i requires 0 <= i < 29 => TEMPLATE[i]);
    assert buf[..] == TEMPLATE;
    PutDate(buf, wday, mon, d);
    PutClock(buf, wday, mon, d);
    CharsArePlaces(buf[..], wday, mon, d);
    ImfPieces(buf[..], d);
  }

  // ---- The printed forms letter by letter ----

  predicate SpellsMonth(mon: nat, s: string) {
    && (mon == 1 ==> s == "Jan") && (mon == 2 ==> s == "Feb") && (mon == 3 ==> s == "Mar") && (mon == 4 ==> s == "Apr")
    && (mon == 5 ==> s == "May") && (mon == 6 ==> s == "Jun") && (mon == 7 ==> s == "Jul") && (mon == 8 ==> s == "Aug")
    && (mon == 9 ==> s == "Sep") && (mon == 10 ==> s == "Oct") && (mon == 11 ==> s == "Nov")
    && (mon == 12 ==> s == "Dec")
  }

  predicate SpellsDay(wday: nat, s: string) {
    && (wday == 1 ==> s == "Mon") && (wday == 2 ==> s == "Tue") && (wday == 3 ==> s == "Wed")
    && (wday == 4 ==> s == "Thu") && (wday == 5 ==> s == "Fri") && (wday == 6 ==> s == "Sat")
    && (wday == 7 ==> s == "Sun")
  }

  predicate SpellsLongDay(wday: nat, s: string) {
    && (wday == 1 ==> s == "Monday") && (wday == 2 ==> s == "Tuesday") && (wday == 3 ==> s == "Wednesday")
    && (wday == 4 ==> s == "Thursday") && (wday == 5 ==> s == "Friday") && (wday == 6 ==> s == "Saturday")
    && (wday == 7 ==> s == "Sunday")
  }

  /** Decimal digits by their character codes, the highest first; 48 is that of zero. */
  predicate ShowsTwo(s: string, n: nat) {
    |s| == 2 && s[0] as int == 48 + n / 10 && s[1] as int == 48 + n % 10
  }

  predicate ShowsFour(s: string, n: nat) {
    && |s| == 4 && s[0] as int == 48 + n / 1000 && s[1] as int == 48 + n / 100 % 10
    && s[2] as int == 48 + n / 10 % 10 && s[3] as int == 48 + n % 10
  }

  predicate ShowsClock(s: string, d: DateTime) {
    && |s| == 8 && ShowsTwo(s[..2], d.hr) && s[2] == ':' && ShowsTwo(s[3..5], d.min) && s[5] == ':'
    && ShowsTwo(s[6..], d.sec)
  }

  lemma NamesSpelled(d: DateTime)
    requires Printable(d)
    ensures SpellsMonth(d.mon, MONTH_NAMES[d.mon - 1]) && SpellsDay(d.wday, DAY_NAMES[d.wday - 1])
  {
  }

  lemma LongNamesSpelled(w: nat)
    requires 1 <= w <= 7
    ensures var s := LONG_DAY_NAMES[w - 1];
            |s| >= 8 && SpellsLongDay(w, s[..|s| - 2]) && s[|s| - 2] == ',' && s[|s| - 1] == ' '
  {
    LongName(LONG_DAY_NAMES[w - 1], w);
  }

  lemma LongName(s: string, w: nat)
    requires 1 <= w <= 7 && s == LONG_DAY_NAMES[w - 1]
    ensures |s| >= 8 && SpellsLongDay(w, s[..|s| - 2]) && s[|s| - 2] == ',' && s[|s| - 1] == ' '
  {
    match w
    case 1 => assert s[..6] == "Monday";
    case 2 => assert s[..7] == "Tuesday";
    case 3 => assert s[..9] == "Wednesday";
    case 4 => assert s[..8] == "Thursday";
    case 5 => assert s[..6] == "Friday";
    case 6 => assert s[..8] == "Saturday";
    case 7 => assert s[..6] == "Sunday";
  }

  lemma ClockShown(d: DateTime)
    requires Printable(d)
    ensures ShowsClock(Clock(d.hr, d.min, d.sec), d)
  {
    ClockPieces(Two(d.hr), Two(d.min), Two(d.sec));
  }

  /** Every name and digit of the preferred form, for every date. */
  lemma PrintByPlace(d: DateTime)
    requires Printable(d)
    ensures var s := Print(d);
            && SpellsDay(d.wday, s[..3]) && s[3..5] == ", " && ShowsTwo(s[5..7], d.day) && s[7] == ' '
            && SpellsMonth(d.mon, s[8..11]) && s[11] == ' ' && ShowsFour(s[12..16], d.year) && s[16] == ' '
            && ShowsClock(s[17..25], d) && s[25..] == " GMT"
  {
    var s := Print(d);
    NamesSpelled(d);
    NameLengths(d);
    ClockShown(d);
    ImfPieces(s, d);
    assert s[..5][..3] == s[..3] && s[..5][3..] == s[3..5] && s[7..12][1..4] == s[8..11];
  }

  predicate ShowsRest(s: string, d: DateTime, gap: char) {
    && |s| == 22 && ShowsTwo(s[..2], d.day) && s[2] == '-' && SpellsMonth(d.mon, s[3..6]) && s[6] == '-'
    && ShowsTwo(s[7..9], d.year % 100) && s[9] == gap && ShowsClock(s[10..18], d) && s[18..] == " GMT"
  }

  lemma RestByPlace(d: DateTime, gap: char)
    requires Printable(d)
    ensures ShowsRest(Rfc850Rest(d, gap), d, gap)
  {
    var s := Rfc850Rest(d, gap);
    NamesSpelled(d);
    NameLengths(d);
    ClockShown(d);
    assert s[9] == gap;
    Rfc850Pieces(s, d);
    assert s[2..7][1..4] == s[3..6];
  }

  /** The same of the form with a two-digit year, in which the weekday is written out. */
  lemma Rfc850ByPlace(d: DateTime, gap: char)
    requires Printable(d)
    ensures var s := Rfc850(d, gap);
            var n := |s| - 22;
            && n >= 8 && SpellsLongDay(d.wday, s[..n][..n - 2]) && s[..n][n - 2] == ',' && s[..n][n - 1] == ' '
            && ShowsRest(s[n..], d, gap)
  {
    var name, rest := LONG_DAY_NAMES[d.wday - 1], Rfc850Rest(d, gap);
    LongNamesSpelled(d.wday);
    RestByPlace(d, gap);
    assert (name + rest)[..|name|] == name && (name + rest)[|name|..] == rest;
  }

  /** The same of the form of the C library. */
  lemma AsctimeByPlace(d: DateTime, pad: char)
    requires Printable(d)
    ensures var s := Asctime(d, pad);
            && SpellsDay(d.wday, s[..3]) && s[3] == ' ' && SpellsMonth(d.mon, s[4..7]) && s[7] == ' '
            && (if d.day < 10 then s[8] == pad && s[9] as int == 48 + d.day else ShowsTwo(s[8..10], d.day))
            && s[10] == ' ' && ShowsClock(s[11..19], d) && s[19] == ' ' && ShowsFour(s[20..], d.year)
  {
    var s := Asctime(d, pad);
    NamesSpelled(d);
    NameLengths(d);
    ClockShown(d);
    AsctimePieces(s, d, pad);
    assert s[..4][..3] == s[..3] && s[4..8][..3] == s[4..7];
  }

  // ---- Parsing ----

  /** Hours, minutes and seconds. */
  function ParseClock(s: string): Option<(nat, nat, nat)>
    requires |s| == 8
  {
    if s[2] != ':' || s[5] != ':' then None
    else
      var hr, min, sec := ToInt2(s[..2]), ToInt2(s[3..5]), ToInt2(s[6..]);
      if hr.Some? && min.Some? && sec.Some? then Some((hr.value, min.value, sec.value)) else None
  }

  function ParseImf(s: string): Option<DateTime> {
    if |s| != 29 || s[25..] != " GMT" || s[16] != ' ' then None
    else
      var clock, day := ParseClock(s[17..25]), ToInt2(s[5..7]);
      var mon, year := FindName(MONTH_NAMES, " ", " ", s[7..12], 0), ToInt4(s[12..16]);
      var wday := FindName(DAY_NAMES, "", ", ", s[..5], 0);
      if clock.Some? && day.Some? && mon.Some? && year.Some? && wday.Some? then
        Some(DateTime(clock.value.2, clock.value.1, clock.value.0, day.value, mon.value, year.value, wday.value))
      else
        None
  }

  /** The weekday that the text starts with, counted from 1. */
  function FindPrefix(s: string, i: nat): (r: Option<nat>)
    requires i <= 7
    ensures r.Some? ==> 1 <= r.value <= 7
    decreases 7 - i
  {
    if i == 7 then None
    else if LONG_DAY_NAMES[i] <= s then Some(i + 1)
    else FindPrefix(s, i + 1)
  }

  function ParseRfc850(s: string): Option<DateTime> {
    if |s| < 23 then None
    else
      var wday := FindPrefix(s, 0);
      if wday.None? || |s| != |LONG_DAY_NAMES[wday.value - 1]| + 22 then None
      else ParseRfc850Rest(s[|s| - 22..], wday.value)
  }

  function ParseRfc850Rest(s: string, wday: nat): Option<DateTime>
    requires |s| == 22
  {
    if s[18..] != " GMT" then None
    else
      var clock, day := ParseClock(s[10..18]), ToInt2(s[..2]);
      var mon, year := FindName(MONTH_NAMES, "-", "-", s[2..7], 0), ToInt2(s[7..9]);
      if clock.Some? && day.Some? && mon.Some? && year.Some? then
        Some(DateTime(clock.value.2, clock.value.1, clock.value.0, day.value, mon.value,
                      year.value + (if year.value < 70 then 2000 else 1900), wday))
      else
        None
  }

  function ParseAsctime(s: string): Option<DateTime> {
    if |s| != 24 || s[10] != ' ' || s[19] != ' ' then None
    else
      var clock, day := ParseClock(s[11..19]), if s[8] == ' ' then ToInt1(s[9]) else ToInt2(s[8..10]);
      var mon, year := FindName(MONTH_NAMES, "", " ", s[4..8], 0), ToInt4(s[20..]);
      var wday := FindName(DAY_NAMES, "", " ", s[..4], 0);
      if clock.Some? && day.Some? && mon.Some? && year.Some? && wday.Some? then
        Some(DateTime(clock.value.2, clock.value.1, clock.value.0, day.value, mon.value, year.value, wday.value))
      else
        None
  }

  // ---- Each parser accepts exactly what its form prints ----

  lemma ClockPieces(a: string, b: string, c: string)
    requires |a| == |b| == |c| == 2
    ensures var t := a + [':'] + b + [':'] + c;
            t[..2] == a && t[2] == ':' && t[3..5] == b && t[5] == ':' && t[6..] == c
  {
  }

  lemma CutClock(s: string)
    requires |s| == 8
    ensures s == s[..2] + [s[2]] + s[3..5] + [s[5]] + s[6..]
  {
  }

  lemma ClockParses(s: string, hr: nat, min: nat, sec: nat)
    requires |s| == 8
    ensures ParseClock(s) == Some((hr, min, sec)) <==>
            hr < 100 && min < 100 && sec < 100 && s == Clock(hr, min, sec)
  {
    TwoDigits(s[..2], hr);
    TwoDigits(s[3..5], min);
    TwoDigits(s[6..], sec);
    if hr < 100 && min < 100 && sec < 100 {
      ClockPieces(Two(hr), Two(min), Two(sec));
      CutClock(s);
    }
  }

  lemma ImfNames(day: string, month: string, wday: nat, mon: nat)
    ensures FindName(DAY_NAMES, "", ", ", day, 0) == Some(wday) <==>
            1 <= wday <= 7 && day == DAY_NAMES[wday - 1] + ", "
    ensures FindName(MONTH_NAMES, " ", " ", month, 0) == Some(mon) <==>
            1 <= mon <= 12 && month == " " + MONTH_NAMES[mon - 1] + " "
  {
    NamesAreDistinct();
    FoundName(DAY_NAMES, "", ", ", day, 0, wday);
    FoundName(MONTH_NAMES, " ", " ", month, 0, mon);
    assert forall name: string :: "" + name + ", " == name + ", ";
  }

  /** The fields of a date as the parser reads them. */
  predicate ImfFields(s: string, d: DateTime)
    requires |s| == 29
  {
    && s[25..] == " GMT" && s[16] == ' ' && ParseClock(s[17..25]) == Some((d.hr, d.min, d.sec))
    && ToInt2(s[5..7]) == Some(d.day) && FindName(MONTH_NAMES, " ", " ", s[7..12], 0) == Some(d.mon)
    && ToInt4(s[12..16]) == Some(d.year) && FindName(DAY_NAMES, "", ", ", s[..5], 0) == Some(d.wday)
  }

  lemma ImfReads(s: string, d: DateTime)
    ensures ParseImf(s) == Some(d) <==> |s| == 29 && ImfFields(s, d)
  {
  }

  lemma ImfIsPrinted(s: string, d: DateTime)
    requires |s| == 29
    ensures ImfFields(s, d) <==> Printable(d) && s == Print(d)
  {
    TwoDigits(s[5..7], d.day);
    FourDigits(s[12..16], d.year);
    ClockParses(s[17..25], d.hr, d.min, d.sec);
    ImfNames(s[..5], s[7..12], d.wday, d.mon);
    if Printable(d) {
      ImfPieces(s, d);
    }
  }

  lemma ImfParses(s: string, d: DateTime)
    ensures ParseImf(s) == Some(d) <==> Printable(d) && s == Print(d)
  {
    ImfReads(s, d);
    if |s| == 29 {
      ImfIsPrinted(s, d);
    } else if Printable(d) {
      NameLengths(d);
    }
  }

  lemma LongNamesApart(i: nat, j: nat)
    requires i < j < 7
    ensures |LONG_DAY_NAMES[i]| >= 2 && |LONG_DAY_NAMES[j]| >= 2
    ensures LONG_DAY_NAMES[i][0] != LONG_DAY_NAMES[j][0] || LONG_DAY_NAMES[i][1] != LONG_DAY_NAMES[j][1]
  {
  }

  lemma {:induction false} FoundPrefix(s: string, i: nat, w: nat)
    requires i <= 7
    ensures FindPrefix(s, i) == Some(w) <==> i < w <= 7 && LONG_DAY_NAMES[w - 1] <= s
    decreases 7 - i
  {
    if i < 7 {
      FoundPrefix(s, i + 1, w);
      if i + 1 < w <= 7 {
        LongNamesApart(i, w - 1);
      }
    }
  }

  lemma Rfc850Pieces(s: string, d: DateTime)
    requires |s| == 22 && Printable(d)
    ensures s == Rfc850Rest(d, s[9]) <==>
            && s[..2] == Two(d.day) && s[2..7] == "-" + MONTH_NAMES[d.mon - 1] + "-"
            && s[7..9] == Two(d.year % 100) && s[10..18] == Clock(d.hr, d.min, d.sec) && s[18..] == " GMT"
  {
    var p := Rfc850Rest(d, s[9]);
    NameLengths(d);
    assert p[2..7] == "-" + MONTH_NAMES[d.mon - 1] + "-";
    assert p[10..18] == Clock(d.hr, d.min, d.sec);
    assert s == s[..2] + s[2..7] + s[7..9] + [s[9]] + s[10..18] + s[18..];
  }

  /** Two digits of a year stand for one of the years 1970 to 2069. */
  lemma WindowedYear(two: nat, year: nat)
    ensures two < 100 && year == two + (if two < 70 then 2000 else 1900) <==>
            1970 <= year <= 2069 && year % 100 == two
  {
  }

  lemma TwoDigitYear(s: string, year: nat)
    requires |s| == 2
    ensures ToInt2(s).Some? && year == ToInt2(s).value + (if ToInt2(s).value < 70 then 2000 else 1900) <==>
            1970 <= year <= 2069 && s == Two(year % 100)
  {
    TwoDigits(s, year % 100);
    var two := ToInt2(s);
    if two.Some? {
      TwoDigits(s, two.value);
      WindowedYear(two.value, year);
    }
  }

  /** The fields after the weekday as the parser reads them. */
  predicate Rfc850Fields(s: string, d: DateTime)
    requires |s| == 22
  {
    && s[18..] == " GMT" && ParseClock(s[10..18]) == Some((d.hr, d.min, d.sec)) && ToInt2(s[..2]) == Some(d.day)
    && FindName(MONTH_NAMES, "-", "-", s[2..7], 0) == Some(d.mon) && ToInt2(s[7..9]).Some?
    && d.year == ToInt2(s[7..9]).value + if ToInt2(s[7..9]).value < 70 then 2000 else 1900
  }

  lemma Rfc850Reads(s: string, wday: nat, d: DateTime)
    requires |s| == 22
    ensures ParseRfc850Rest(s, wday) == Some(d) <==> d.wday == wday && Rfc850Fields(s, d)
  {
  }

  lemma Rfc850IsPrinted(s: string, d: DateTime)
    requires |s| == 22 && 1 <= d.wday <= 7
    ensures Rfc850Fields(s, d) <==> Printable(d) && 1970 <= d.year <= 2069 && s == Rfc850Rest(d, s[9])
  {
    NamesAreDistinct();
    TwoDigits(s[..2], d.day);
    ClockParses(s[10..18], d.hr, d.min, d.sec);
    FoundName(MONTH_NAMES, "-", "-", s[2..7], 0, d.mon);
    TwoDigitYear(s[7..9], d.year);
    if Printable(d) {
      Rfc850Pieces(s, d);
    }
  }

  lemma Rfc850RestParses(s: string, wday: nat, d: DateTime)
    requires |s| == 22 && 1 <= wday <= 7
    ensures ParseRfc850Rest(s, wday) == Some(d) <==>
            d.wday == wday && Printable(d) && 1970 <= d.year <= 2069 && s == Rfc850Rest(d, s[9])
  {
    Rfc850Reads(s, wday, d);
    if d.wday == wday {
      Rfc850IsPrinted(s, d);
    }
  }

  /** Splitting off a name of known length. */
  lemma NameAndRest(s: string, name: string, rest: string)
    requires |rest| == 22
    ensures s == name + rest <==> |s| == |name| + 22 && name <= s && s[|s| - 22..] == rest
  {
    if |s| == |name| + 22 && name <= s {
      assert s == name + s[|s| - 22..];
    }
  }

  lemma Rfc850Whole(s: string, d: DateTime, rest: string, gap: char)
    requires |s| >= 23 && Printable(d) && rest == s[|s| - 22..] && gap == s[|s| - 13]
    ensures s == Rfc850(d, gap) <==>
            FindPrefix(s, 0) == Some(d.wday) && |s| == |LONG_DAY_NAMES[d.wday - 1]| + 22 && rest == Rfc850Rest(d, gap)
  {
    NameAndRest(s, LONG_DAY_NAMES[d.wday - 1], Rfc850Rest(d, gap));
    FoundPrefix(s, 0, d.wday);
  }

  lemma Rfc850Parses(s: string, d: DateTime)
    ensures ParseRfc850(s) == Some(d) <==>
            Printable(d) && 1970 <= d.year <= 2069 && |s| >= 23 && s == Rfc850(d, s[|s| - 13])
  {
    if |s| >= 23 {
      var rest, gap := s[|s| - 22..], s[|s| - 13];
      assert rest[9] == gap;
      var wday := FindPrefix(s, 0);
      if wday.Some? {
        FoundPrefix(s, 0, wday.value);
        Rfc850RestParses(rest, wday.value, d);
      }
      if Printable(d) {
        Rfc850Whole(s, d, rest, gap);
      }
    }
  }

  lemma PaddedDayParses(s: string, d: DateTime)
    requires |s| == 2 && Printable(d)
    ensures (if s[0] == ' ' then ToInt1(s[1]) else ToInt2(s)) == Some(d.day) <==>
            s == PaddedDay(d, ' ') || s == PaddedDay(d, '0')
  {
    OneDigit(s[1], d.day);
    TwoDigits(s, d.day);
  }

  lemma AsctimePieces(s: string, d: DateTime, pad: char)
    requires |s| == 24 && Printable(d)
    ensures s == Asctime(d, pad) <==>
            && s[..4] == DAY_NAMES[d.wday - 1] + " " && s[4..8] == MONTH_NAMES[d.mon - 1] + " "
            && s[8..10] == PaddedDay(d, pad) && s[10] == ' ' && s[11..19] == Clock(d.hr, d.min, d.sec)
            && s[19] == ' ' && s[20..] == Four(d.year)
  {
    NameLengths(d);
    var p := Asctime(d, pad);
    assert p[..4] == DAY_NAMES[d.wday - 1] + " ";
    assert p[4..8] == MONTH_NAMES[d.mon - 1] + " ";
    assert p[11..19] == Clock(d.hr, d.min, d.sec);
    assert s == s[..4] + s[4..8] + s[8..10] + [s[10]] + s[11..19] + [s[19]] + s[20..];
  }

  lemma AsctimeNames(day: string, month: string, wday: nat, mon: nat)
    ensures FindName(DAY_NAMES, "", " ", day, 0) == Some(wday) <==>
            1 <= wday <= 7 && day == DAY_NAMES[wday - 1] + " "
    ensures FindName(MONTH_NAMES, "", " ", month, 0) == Some(mon) <==>
            1 <= mon <= 12 && month == MONTH_NAMES[mon - 1] + " "
  {
    NamesAreDistinct();
    FoundName(DAY_NAMES, "", " ", day, 0, wday);
    FoundName(MONTH_NAMES, "", " ", month, 0, mon);
    assert forall name: string :: "" + name + " " == name + " ";
  }

  /** The fields of a date as the parser reads them. */
  predicate AsctimeFields(s: string, d: DateTime)
    requires |s| == 24
  {
    && s[10] == ' ' && s[19] == ' ' && ParseClock(s[11..19]) == Some((d.hr, d.min, d.sec))
    && (if s[8] == ' ' then ToInt1(s[9]) else ToInt2(s[8..10])) == Some(d.day)
    && FindName(MONTH_NAMES, "", " ", s[4..8], 0) == Some(d.mon) && ToInt4(s[20..]) == Some(d.year)
    && FindName(DAY_NAMES, "", " ", s[..4], 0) == Some(d.wday)
  }

  lemma AsctimeReads(s: string, d: DateTime)
    ensures ParseAsctime(s) == Some(d) <==> |s| == 24 && AsctimeFields(s, d)
  {
  }

  lemma AsctimeIsPrintable(s: string, d: DateTime)
    requires |s| == 24 && AsctimeFields(s, d)
    ensures Printable(d)
  {
    FourDigits(s[20..], d.year);
    ClockParses(s[11..19], d.hr, d.min, d.sec);
    AsctimeNames(s[..4], s[4..8], d.wday, d.mon);
    OneDigit(s[9], d.day);
    TwoDigits(s[8..10], d.day);
  }

  lemma AsctimeIsPrinted(s: string, d: DateTime)
    requires |s| == 24 && Printable(d)
    ensures AsctimeFields(s, d) <==> s == Asctime(d, ' ') || s == Asctime(d, '0')
  {
    FourDigits(s[20..], d.year);
    ClockParses(s[11..19], d.hr, d.min, d.sec);
    AsctimeNames(s[..4], s[4..8], d.wday, d.mon);
    PaddedDayParses(s[8..10], d);
    AsctimePieces(s, d, ' ');
    AsctimePieces(s, d, '0');
  }

  lemma AsctimeParses(s: string, d: DateTime)
    ensures ParseAsctime(s) == Some(d) <==> Printable(d) && (s == Asctime(d, ' ') || s == Asctime(d, '0'))
  {
    AsctimeReads(s, d);
    if |s| == 24 {
      if AsctimeFields(s, d) {
        AsctimeIsPrintable(s, d);
      }
      if Printable(d) {
        AsctimeIsPrinted(s, d);
      }
    } else if Printable(d) {
      NameLengths(d);
    }
  }

  // ---- The whole parser ----

  predicate IsAscii(s: string) {
    forall i :: 0 <= i < |s| ==> s[i] as int < 128
  }

  predicate IsSpace(c: char) {
    c == ' ' || 9 <= c as int <= 13
  }

  function TrimStart(s: string): string {
    if s != [] && IsSpace(s[0]) then TrimStart(s[1..]) else s
  }

  function TrimEnd(s: string): string {
    if s != [] && IsSpace(s[|s| - 1]) then TrimEnd(s[..|s| - 1]) else s
  }

  function Trim(s: string): string {
    TrimEnd(TrimStart(s))
  }

  /** White space by character code: tab, line feed, vertical tab, form feed, carriage return and blank. */
  lemma SpaceByCode(c: char)
    ensures IsSpace(c) <==> c as int in {9, 10, 11, 12, 13, 32}
  {
  }

  lemma {:induction false} TrimmedStart(s: string) returns (pre: string)
    ensures s == pre + TrimStart(s) && forall i :: 0 <= i < |pre| ==> IsSpace(pre[i])
    ensures TrimStart(s) != [] ==> !IsSpace(TrimStart(s)[0])
  {
    pre := [];
    if s != [] && IsSpace(s[0]) {
      var rest := TrimmedStart(s[1..]);
      pre := [s[0]] + rest;
    }
  }

  lemma {:induction false} TrimmedEnd(s: string) returns (post: string)
    ensures s == TrimEnd(s) + post && forall i :: 0 <= i < |post| ==> IsSpace(post[i])
    ensures TrimEnd(s) != [] ==> !IsSpace(TrimEnd(s)[|TrimEnd(s)| - 1])
  {
    post := [];
    if s != [] && IsSpace(s[|s| - 1]) {
      var rest := TrimmedEnd(s[..|s| - 1]);
      post := rest + [s[|s| - 1]];
    }
  }

  /** Trimming takes off white space at both ends, all of it and nothing else. */
  lemma Trimmed(s: string) returns (pre: string, post: string)
    ensures s == pre + Trim(s) + post
    ensures forall i :: 0 <= i < |pre| ==> IsSpace(pre[i])
    ensures forall i :: 0 <= i < |post| ==> IsSpace(post[i])
    ensures Trim(s) != [] ==> !IsSpace(Trim(s)[0]) && !IsSpace(Trim(s)[|Trim(s)| - 1])
  {
    pre := TrimmedStart(s);
    post := TrimmedEnd(TrimStart(s));
    assert Trim(s) != [] ==> Trim(s)[0] == TrimStart(s)[0];
  }

  function OrElse(a: Option<DateTime>, b: Option<DateTime>): Option<DateTime> {
    if a.Some? then a else b
  }

  function FromStr(s: string): Option<DateTime> {
    if !IsAscii(s) then None
    else
      var x := Trim(s);
      var date := OrElse(OrElse(ParseImf(x), ParseRfc850(x)), ParseAsctime(x));
      if date.Some? && IsValid(date.value) then date else None
  }

  /** The texts of a date: the preferred form, the form with two digits for the year, the form of the C library. */
  predicate IsTextOf(x: string, d: DateTime)
    requires Printable(d)
  {
    || x == Print(d)
    || (d.year <= 2069 && |x| >= 23 && x == Rfc850(d, x[|x| - 13]))
    || x == Asctime(d, ' ') || x == Asctime(d, '0')
  }

  lemma CalendarDatesPrint(d: DateTime)
    requires CalendarDate(d)
    ensures Printable(d) && d.year >= 1970
  {
  }

  lemma LongNames(w: nat)
    requires 1 <= w <= 7
    ensures 8 <= |LONG_DAY_NAMES[w - 1]| <= 11
  {
  }

  /** No text is accepted by two of the parsers: their lengths are 29, 30 to 33, and 24. */
  lemma ParsersAreDisjoint(x: string)
    ensures ParseImf(x).Some? ==> |x| == 29
    ensures ParseRfc850(x).Some? ==> 30 <= |x| <= 33
    ensures ParseAsctime(x).Some? ==> |x| == 24
  {
    if ParseRfc850(x).Some? {
      LongNames(FindPrefix(x, 0).value);
    }
  }

  /** A text parses to a date exactly when it is ASCII and, without the white space around it, a text of that
      date, and the date is one of the calendar. */
  lemma FromStrParses(s: string, d: DateTime)
    ensures FromStr(s) == Some(d) <==> IsAscii(s) && CalendarDate(d) && (CalendarDatesPrint(d); IsTextOf(Trim(s), d))
  {
    var x := Trim(s);
    ImfParses(x, d);
    Rfc850Parses(x, d);
    AsctimeParses(x, d);
    ParsersAreDisjoint(x);
    IsValidIsCalendar(d);
    if CalendarDate(d) {
      CalendarDatesPrint(d);
    }
  }

  // ---- The round trip ----

  predicate AllSpace(s: string) {
    forall i :: 0 <= i < |s| ==> IsSpace(s[i])
  }

  lemma {:induction false} TrimsStart(pre: string, x: string)
    requires AllSpace(pre) && x != [] && !IsSpace(x[0])
    ensures TrimStart(pre + x) == x
  {
    if pre == [] {
      assert pre + x == x;
    } else {
      assert (pre + x)[1..] == pre[1..] + x;
      TrimsStart(pre[1..], x);
    }
  }

  lemma {:induction false} TrimsEnd(x: string, post: string)
    requires AllSpace(post) && x != [] && !IsSpace(x[|x| - 1])
    ensures TrimEnd(x + post) == x
  {
    if post == [] {
      assert x + post == x;
    } else {
      var n := |post| - 1;
      assert (x + post)[..|x + post| - 1] == x + post[..n];
      TrimsEnd(x, post[..n]);
    }
  }

  lemma NamesAreAscii(d: DateTime)
    requires Printable(d)
    ensures IsAscii(DAY_NAMES[d.wday - 1]) && IsAscii(MONTH_NAMES[d.mon - 1])
    ensures !IsSpace(DAY_NAMES[d.wday - 1][0])
  {
  }

  lemma DigitsAreAscii(d: DateTime)
    requires Printable(d)
    ensures IsAscii(Four(d.year)) && IsAscii(Two(d.day)) && IsAscii(Clock(d.hr, d.min, d.sec))
  {
  }

  lemma AsciiSum(a: string, b: string)
    requires IsAscii(a) && IsAscii(b)
    ensures IsAscii(a + b)
  {
  }

  lemma PrintIsAscii(d: DateTime)
    requires Printable(d)
    ensures IsAscii(Print(d)) && !IsSpace(Print(d)[0]) && Print(d)[28] == 'T'
  {
    NamesAreAscii(d);
    NameLengths(d);
    DigitsAreAscii(d);
    var day, month := DAY_NAMES[d.wday - 1] + ", ", " " + MONTH_NAMES[d.mon - 1] + " ";
    var date := day + Two(d.day) + month + Four(d.year) + [' '];
    AsciiSum(day, Two(d.day));
    AsciiSum(day + Two(d.day), month);
    AsciiSum(day + Two(d.day) + month, Four(d.year));
    AsciiSum(date, Clock(d.hr, d.min, d.sec));
    assert IsAscii(" GMT");
  }

  /** White space around a text of a date does not matter. */
  lemma TextParses(d: DateTime, x: string, pre: string, post: string)
    requires CalendarDate(d) && AllSpace(pre) && AllSpace(post) && Printable(d) && IsTextOf(x, d)
    requires IsAscii(x) && x != [] && !IsSpace(x[0]) && !IsSpace(x[|x| - 1])
    ensures FromStr(pre + x + post) == Some(d)
  {
    var s := pre + x + post;
    assert s == pre + (x + post);
    TrimsStart(pre, x + post);
    TrimsEnd(x, post);
    FromStrParses(s, d);
  }

  /** Parsing the printed form of any date of the calendar, with any white space around it, gives the date back. */
  lemma PrintedDatesParse(d: DateTime, pre: string, post: string)
    requires CalendarDate(d) && AllSpace(pre) && AllSpace(post)
    ensures Printable(d) && FromStr(pre + Print(d) + post) == Some(d)
  {
    CalendarDatesPrint(d);
    PrintIsAscii(d);
    TextParses(d, Print(d), pre, post);
  }

  lemma RestIsAscii(d: DateTime, gap: char)
    requires Printable(d) && gap as int < 128
    ensures var s := Rfc850Rest(d, gap);
            IsAscii(s) && s[21] == 'T'
  {
    NamesAreAscii(d);
    NameLengths(d);
    DigitsAreAscii(d);
    var month := "-" + MONTH_NAMES[d.mon - 1] + "-";
    AsciiSum(Two(d.day), month);
    AsciiSum(Two(d.day) + month, Two(d.year % 100));
    AsciiSum(Two(d.day) + month + Two(d.year % 100) + [gap], Clock(d.hr, d.min, d.sec));
    assert IsAscii(" GMT");
  }

  lemma LongNamesAreAscii(w: nat)
    requires 1 <= w <= 7
    ensures var s := LONG_DAY_NAMES[w - 1];
            s != [] && IsAscii(s) && !IsSpace(s[0])
  {
  }

  lemma AsctimeIsAscii(d: DateTime, pad: char)
    requires Printable(d) && pad as int < 128
    ensures var s := Asctime(d, pad);
            IsAscii(s) && !IsSpace(s[0]) && !IsSpace(s[23])
  {
    NamesAreAscii(d);
    NameLengths(d);
    DigitsAreAscii(d);
    var day, month := DAY_NAMES[d.wday - 1] + " ", MONTH_NAMES[d.mon - 1] + " ";
    AsciiSum(day, month);
    AsciiSum(day + month, PaddedDay(d, pad));
    AsciiSum(day + month + PaddedDay(d, pad) + [' '], Clock(d.hr, d.min, d.sec));
    AsciiSum(day + month + PaddedDay(d, pad) + [' '] + Clock(d.hr, d.min, d.sec) + [' '], Four(d.year));
  }

  lemma Rfc850Ends(name: string, rest: string, gap: char)
    requires name != [] && !IsSpace(name[0]) && |rest| == 22 && rest[9] == gap && rest[21] == 'T'
    requires IsAscii(name) && IsAscii(rest)
    ensures var x := name + rest;
            |x| >= 23 && x[|x| - 13] == gap && IsAscii(x) && !IsSpace(x[0]) && !IsSpace(x[|x| - 1])
  {
  }

  /** The same of the form with a two-digit year, for the years that two digits stand for. */
  lemma Rfc850DatesParse(d: DateTime, gap: char, pre: string, post: string)
    requires CalendarDate(d) && AllSpace(pre) && AllSpace(post) && gap as int < 128 && d.year <= 2069
    ensures Printable(d) && FromStr(pre + Rfc850(d, gap) + post) == Some(d)
  {
    CalendarDatesPrint(d);
    LongNamesAreAscii(d.wday);
    RestIsAscii(d, gap);
    RestByPlace(d, gap);
    Rfc850Ends(LONG_DAY_NAMES[d.wday - 1], Rfc850Rest(d, gap), gap);
    TextParses(d, Rfc850(d, gap), pre, post);
  }

  /** The same of the form of the C library, with either padding. */
  lemma AsctimeDatesParse(d: DateTime, pad: char, pre: string, post: string)
    requires CalendarDate(d) && AllSpace(pre) && AllSpace(post) && (pad == ' ' || pad == '0')
    ensures Printable(d) && FromStr(pre + Asctime(d, pad) + post) == Some(d)
  {
    CalendarDatesPrint(d);
    AsctimeIsAscii(d, pad);
    TextParses(d, Asctime(d, pad), pre, post);
  }

  // ---- A known date ----

  const SAMPLE: DateTime := DateTime(37, 49, 8, 6, 11, 1994, 7)

  /** The date that RFC 9110 uses as its example, as seconds and in its three texts. */
  lemma SampleDate()
    ensures CalendarDate(SAMPLE) && ToSeconds(SAMPLE) == 784111777 && DateOf(784111777) == SAMPLE
    ensures Printable(SAMPLE) && Print(SAMPLE) == "Sun, 06 Nov 1994 08:49:37 GMT"
    ensures Rfc850(SAMPLE, ' ') == "Sunday, 06-Nov-94 08:49:37 GMT"
    ensures Asctime(SAMPLE, ' ') == "Sun Nov  6 08:49:37 1994"
  {
    SampleSeconds();
    SampleTexts();
  }

  lemma SampleSeconds()
    ensures CalendarDate(SAMPLE) && ToSeconds(SAMPLE) == 784111777 && DateOf(784111777) == SAMPLE
  {
    SampleDay();
    RoundTrip(784111777, SAMPLE);
  }

  lemma SampleDay()
    ensures DayNumber(1994, 11, 6) == 9075 && CalendarDate(SAMPLE)
  {
    DayNumberIsCalendar(1994, 11, 6);
  }

  lemma SampleFields()
    ensures Two(6) == "06" && Two(94) == "94" && Four(1994) == "1994" && Clock(8, 49, 37) == "08:49:37"
  {
    assert Two(8) == "08" && Two(49) == "49" && Two(37) == "37";
  }

  lemma SampleTexts()
    ensures Printable(SAMPLE) && Print(SAMPLE) == "Sun, 06 Nov 1994 08:49:37 GMT"
    ensures Rfc850(SAMPLE, ' ') == "Sunday, 06-Nov-94 08:49:37 GMT"
    ensures Asctime(SAMPLE, ' ') == "Sun Nov  6 08:49:37 1994"
  {
    SampleFields();
    SamplePrint("06", "1994", "08:49:37");
    SampleRfc850("06", "94", "08:49:37");
    SampleAsctime("1994", "08:49:37");
  }

  lemma SamplePrint(day: string, year: string, clock: string)
    requires day == "06" && year == "1994" && clock == "08:49:37"
    ensures ("Sun" + ", ") + day + (" " + "Nov" + " ") + year + [' '] + clock + " GMT" ==
            "Sun, 06 Nov 1994 08:49:37 GMT"
  {
  }

  lemma SampleRfc850(day: string, year: string, clock: string)
    requires day == "06" && year == "94" && clock == "08:49:37"
    ensures "Sunday, " + (day + ("-" + "Nov" + "-") + year + [' '] + clock + " GMT") == "Sunday, 06-Nov-94 08:49:37 GMT"
  {
  }

  lemma SampleAsctime(year: string, clock: string)
    requires year == "1994" && clock == "08:49:37"
    ensures ("Sun" + " ") + ("Nov" + " ") + [' ', '6'] + [' '] + clock + [' '] + year == "Sun Nov  6 08:49:37 1994"
  {
  }

  // ---- The comparisons as the source writes them ----

  /** The written comparisons set four bytes against three. */
  function ParseImfAsWritten(s: string): Option<DateTime> {
    if |s| != 29 || s[25..] != "GMT" then None else ParseImf(s)
  }

  function ParseRfc850AsWritten(s: string): Option<DateTime> {
    if |s| < 23 || FindPrefix(s, 0).None? || s[|s| - 4..] != "GMT" then None else ParseRfc850(s)
  }

  function FromStrAsWritten(s: string): Option<DateTime> {
    if !IsAscii(s) then None
    else
      var x := Trim(s);
      var date := OrElse(OrElse(ParseImfAsWritten(x), ParseRfc850AsWritten(x)), ParseAsctime(x));
      if date.Some? && IsValidAsWritten(date.value) then date else None
  }

  /** As written, two of the parsers reject every text, and the whole parser rejects everything. */
  lemma WrittenParserRejects(s: string)
    ensures ParseImfAsWritten(s).None? && ParseRfc850AsWritten(s).None? && FromStrAsWritten(s).None?
  {
    var date := ParseAsctime(Trim(s));
    if date.Some? {
      NothingIsValidAsWritten(date.value);
    }
  }
}
