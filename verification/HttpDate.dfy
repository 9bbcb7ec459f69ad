// HTTP dates: `http_date` with its one-entry cache, `http_date_parse`, and the
// round trip between them (IMF-fixdate, section 7.1.1.1 of RFC 7231).
module HttpDate {
  import opened Text
  import opened Calendar
  import opened Wrappers

  // ---- Printing ----

  function DayName(d: int): (s: string)
    requires 0 <= d < 7
    ensures |s| == 3 && IsAlpha(s[0]) && IsAlpha(s[1]) && IsAlpha(s[2])
  {
    if d == 0 then "Sun" else if d == 1 then "Mon" else if d == 2 then "Tue" else if d == 3 then "Wed"
    else if d == 4 then "Thu" else if d == 5 then "Fri" else "Sat"
  }

  function MonthName(m: int): (s: string)
    requires 0 <= m < 12
    ensures |s| == 3 && IsAlpha(s[0]) && IsAlpha(s[1]) && IsAlpha(s[2])
  {
    if m == 0 then "Jan" else if m == 1 then "Feb" else if m == 2 then "Mar" else if m == 3 then "Apr"
    else if m == 4 then "May" else if m == 5 then "Jun" else if m == 6 then "Jul" else if m == 7 then "Aug"
    else if m == 8 then "Sep" else if m == 9 then "Oct" else if m == 10 then "Nov" else "Dec"
  }

  function Digit(n: int): (c: char)
    requires 0 <= n < 10
    ensures IsDigit(c) && c as int == '0' as int + n
  {
    ('0' as int + n) as char
  }

  function Pad2(n: int): string
    requires 0 <= n < 100
  {
    [Digit(n / 10), Digit(n % 10)]
  }

  function Pad4(n: int): string
    requires 0 <= n < 10000
  {
    [Digit(n / 1000), Digit(n / 100 % 10), Digit(n / 10 % 10), Digit(n % 10)]
  }

  function PrintClock(t: Tm): (s: string)
    requires Valid(t)
    ensures |s| == 13
  {
    " " + (Pad2(t.hour) + (":" + (Pad2(t.min) + (":" + (Pad2(t.sec) + " GMT")))))
  }

  function PrintDate(t: Tm): (s: string)
    requires Valid(t) && 0 <= t.year + 1900 <= 9999
    ensures |s| == 13
  {
    "," + (" " + (Pad2(t.mday) + (" " + (MonthName(t.mon) + (" " + Pad4(t.year + 1900))))))
  }

  /** strftime with "%a, %d %b %Y %H:%M:%S GMT". */
  function Strftime(wday: int, t: Tm): (s: string)
    requires 0 <= wday < 7 && Valid(t) && 0 <= t.year + 1900 <= 9999
    ensures |s| == 29
  {
    DayName(wday) + (PrintDate(t) + PrintClock(t))
  }

  /** The date of second `t`; 1970-01-01 was a Thursday. */
  function Format(t: nat): (s: string)
    requires t <= LAST
    ensures |s| == 29
  {
    FourDigitYears(t);
    Strftime((t / 86400 + 4) % 7, Gmtime(t))
  }

  // ---- Scanning ----

  predicate IsSpace(c: char) { c == ' ' || 9 <= c as int <= 13 }

  function SkipSpace(s: string): string {
    if s != "" && IsSpace(s[0]) then SkipSpace(s[1..]) else s
  }

  function Digits(s: string, acc: int): (r: (int, string)) {
    if s != "" && IsDigit(s[0]) then Digits(s[1..], 10 * acc + (s[0] as int - '0' as int)) else (acc, s)
  }

  /** scanf's `%d`: spaces, an optional sign, digits. */
  function ScanInt(s: string): Option<(int, string)> {
    var t := SkipSpace(s);
    var signed := t != "" && (t[0] == '-' || t[0] == '+');
    var u := if signed then t[1..] else t;
    if u == "" || !IsDigit(u[0]) then None
    else
      var (n, rest) := Digits(u, 0);
      Some((if signed && t[0] == '-' then -n else n, rest))
  }

  /** scanf's `%3[A-Za-z]`: one to three letters, no spaces skipped. */
  function ScanLetters(s: string): Option<(string, string)> {
    if s == "" || !IsAlpha(s[0]) then None
    else if |s| == 1 || !IsAlpha(s[1]) then Some((s[..1], s[1..]))
    else if |s| == 2 || !IsAlpha(s[2]) then Some((s[..2], s[2..]))
    else Some((s[..3], s[3..]))
  }

  function ScanChar(s: string, c: char): Option<string> {
    if s != "" && s[0] == c then Some(s[1..]) else None
  }

  /** The conversions that are used; the weekday is read and ignored. */
  datatype Fields = Fields(mon: string, day: int, year: int, hour: int, min: int, sec: int)

  /** "%d:%d:%d"; text after the last number does not matter. */
  function ScanClock(s: string): Option<(int, int, int)> {
    match ScanInt(s) case None => None case Some((hour, s1)) =>
    match ScanChar(s1, ':') case None => None case Some(s2) =>
    match ScanInt(s2) case None => None case Some((min, s3)) =>
    match ScanChar(s3, ':') case None => None case Some(s4) =>
    match ScanInt(s4) case None => None case Some((sec, _)) =>
    Some((hour, min, sec))
  }

  /** ", %d %3[A-Za-z] %d" and what follows. */
  function ScanDate(s: string): Option<(int, string, int, string)> {
    match ScanChar(s, ',') case None => None case Some(s1) =>
    match ScanInt(s1) case None => None case Some((day, s2)) =>
    match ScanLetters(SkipSpace(s2)) case None => None case Some((mon, s3)) =>
    match ScanInt(s3) case None => None case Some((year, s4)) =>
    Some((day, mon, year, s4))
  }

  /** sscanf with "%3[A-Za-z], %d %3[A-Za-z] %d %d:%d:%d GMT" filling all seven
      conversions. */
  function Scan(s: string): Option<Fields> {
    match ScanLetters(s) case None => None case Some((_, s1)) =>
    match ScanDate(s1) case None => None case Some((day, mon, year, s2)) =>
    match ScanClock(s2) case None => None case Some((hour, min, sec)) =>
    Some(Fields(mon, day, year, hour, min, sec))
  }

  function Lower(c: char): char {
    if IsUpper(c) then (c as int + 32) as char else c
  }

  /** `month_eq` on a name and a three-letter month. */
  predicate SameMonth(a: string, b: string)
    requires |b| == 3
  {
    |a| == 3 && Lower(a[0]) == Lower(b[0]) && Lower(a[1]) == Lower(b[1]) && Lower(a[2]) == Lower(b[2])
  }

  /** The first month from `m` on with that name, or -1. */
  function MonthIndex(mon: string, m: int): (r: int)
    requires 0 <= m <= 12
    ensures r == -1 || m <= r < 12
    decreases 12 - m
  {
    if m == 12 then -1 else if SameMonth(mon, MonthName(m)) then m else MonthIndex(mon, m + 1)
  }

  /** `month_number`. */
  method MonthNumber(mon: string) returns (m: int)
    ensures m == MonthIndex(mon, 0)
  {
    m := 0;
    while m < 12
      invariant 0 <= m <= 12
      invariant MonthIndex(mon, m) == MonthIndex(mon, 0)
    {
      if SameMonth(mon, MonthName(m)) {
        return;
      }
      m := m + 1;
    }
    m := -1;
  }

  predicate SameLetters(a: string, b: string) {
    |a| == |b| && forall k :: 0 <= k < |a| ==> Lower(a[k]) == Lower(b[k])
  }

  lemma NotEarlier(mon: string, m: int, j: int)
    requires 0 <= j < m < 12 && SameLetters(mon, MonthName(m))
    ensures !SameMonth(mon, MonthName(j))
  {
  }

  lemma {:induction false} MonthFrom(mon: string, m: int, j: int)
    requires 0 <= j <= m < 12 && SameLetters(mon, MonthName(m))
    ensures MonthIndex(mon, j) == m
    decreases m - j
  {
    if j < m {
      NotEarlier(mon, m, j);
      MonthFrom(mon, m, j + 1);
    }
  }

  /** Each month is found by its name in any letter case. */
  lemma MonthFound(mon: string, m: int)
    requires 0 <= m < 12 && SameLetters(mon, MonthName(m))
    ensures MonthIndex(mon, 0) == m
  {
    MonthFrom(mon, m, 0);
  }

  /** What `http_date_parse` computes. */
  function Parse(s: string): Option<int> {
    match Scan(s)
    case None => None
    case Some(f) =>
      var m := MonthIndex(f.mon, 0);
      if m < 0 then None else Some(TmToTime(Tm(f.year - 1900, m, f.day, f.hour, f.min, f.sec)))
  }

  /** `http_date_parse`. */
  method HttpDateParse(s: string) returns (r: Option<int>)
    ensures r == Parse(s)
  {
    match Scan(s)
    case None => return None;
    case Some(f) =>
      var m := MonthNumber(f.mon);
      if m < 0 {
        return None;
      }
      return Some(TmToTime(Tm(f.year - 1900, m, f.day, f.hour, f.min, f.sec)));
  }

  // ---- Round trip ----

  lemma DigitsStop(s: string, acc: int)
    requires s == "" || !IsDigit(s[0])
    ensures Digits(s, acc) == (acc, s)
  {
  }

  lemma ScanPad2(n: int, rest: string)
    requires 0 <= n < 100 && (rest == "" || !IsDigit(rest[0]))
    ensures ScanInt(Pad2(n) + rest) == Some((n, rest))
    ensures ScanInt(" " + (Pad2(n) + rest)) == Some((n, rest))
  {
    var s := Pad2(n) + rest;
    assert s[1..][1..] == rest;
    DigitsStop(rest, n);
    assert Digits(s[1..], n / 10) == Digits(rest, n);
    assert Digits(s, 0) == Digits(s[1..], n / 10);
    assert (" " + s)[1..] == s;
  }

  lemma ScanPad4(n: int, rest: string)
    requires 0 <= n < 10000 && (rest == "" || !IsDigit(rest[0]))
    ensures ScanInt(" " + (Pad4(n) + rest)) == Some((n, rest))
  {
    var s := Pad4(n) + rest;
    assert s[1..][1..] == s[2..] && s[2..][1..] == s[3..] && s[3..][1..] == rest;
    Tens(n);
    DigitsStop(rest, n);
    DigitsStep(s[3..], n / 10);
    DigitsStep(s[2..], n / 100);
    DigitsStep(s[1..], n / 1000);
    DigitsStep(s, 0);
    assert Digits(s[3..], n / 10) == (n, rest);
    assert Digits(s[2..], n / 100) == (n, rest);
    assert Digits(s[1..], n / 1000) == (n, rest);
    assert Digits(s, 0) == (n, rest);
    assert (" " + s)[1..] == s && IsDigit(s[0]);
    assert SkipSpace(" " + s) == SkipSpace(s) == s;
  }

  lemma DigitsStep(s: string, acc: int)
    requires s != "" && IsDigit(s[0])
    ensures Digits(s, acc) == Digits(s[1..], 10 * acc + (s[0] as int - '0' as int))
  {
  }

  lemma Tens(n: int)
    requires 0 <= n < 10000
    ensures 10 * (n / 1000) + n / 100 % 10 == n / 100
    ensures 10 * (n / 100) + n / 10 % 10 == n / 10
    ensures 10 * (n / 10) + n % 10 == n
  {
  }

  lemma ScanThree(name: string, rest: string)
    requires |name| == 3 && IsAlpha(name[0]) && IsAlpha(name[1]) && IsAlpha(name[2])
    ensures ScanLetters(name + rest) == Some((name, rest))
    ensures ScanLetters(SkipSpace(" " + (name + rest))) == Some((name, rest))
  {
  }

  lemma ScanPrintedClock(t: Tm)
    requires Valid(t)
    ensures ScanClock(PrintClock(t)) == Some((t.hour, t.min, t.sec))
  {
    var s4 := Pad2(t.sec) + " GMT";
    var s2 := Pad2(t.min) + (":" + s4);
    ScanPad2(t.sec, " GMT");
    ScanPad2(t.min, ":" + s4);
    ScanPad2(t.hour, ":" + s2);
  }

  lemma ScanPrintedDate(t: Tm, rest: string)
    requires Valid(t) && 0 <= t.year + 1900 <= 9999 && (rest == "" || !IsDigit(rest[0]))
    ensures ScanDate(PrintDate(t) + rest) == Some((t.mday, MonthName(t.mon), t.year + 1900, rest))
  {
    var s3 := " " + (Pad4(t.year + 1900) + rest);
    var s2 := " " + (MonthName(t.mon) + s3);
    var s1 := " " + (Pad2(t.mday) + s2);
    ScanPad4(t.year + 1900, rest);
    ScanThree(MonthName(t.mon), s3);
    ScanPad2(t.mday, s2);
    DateText(Pad2(t.mday), MonthName(t.mon), Pad4(t.year + 1900), rest);
    ScanDateWith(s1, s2, s3, t.mday, MonthName(t.mon), t.year + 1900, rest);
  }

  lemma DateText(d: string, m: string, y: string, r: string)
    ensures ("," + (" " + (d + (" " + (m + (" " + y)))))) + r == "," + (" " + (d + (" " + (m + (" " + (y + r))))))
  {
  }

  lemma ScanDateWith(s1: string, s2: string, s3: string, day: int, mon: string, year: int, rest: string)
    requires ScanInt(s1) == Some((day, s2)) && ScanLetters(SkipSpace(s2)) == Some((mon, s3))
    requires ScanInt(s3) == Some((year, rest))
    ensures ScanDate("," + s1) == Some((day, mon, year, rest))
  {
    assert ("," + s1)[1..] == s1;
  }

  /** Whatever strftime prints, sscanf reads back. */
  lemma ScanPrinted(wday: int, t: Tm)
    requires 0 <= wday < 7 && Valid(t) && 0 <= t.year + 1900 <= 9999
    ensures Scan(Strftime(wday, t)) ==
            Some(Fields(MonthName(t.mon), t.mday, t.year + 1900, t.hour, t.min, t.sec))
  {
    ScanThree(DayName(wday), PrintDate(t) + PrintClock(t));
    ScanPrintedDate(t, PrintClock(t));
    ScanPrintedClock(t);
  }

  lemma ParsePrinted(wday: int, t: Tm)
    requires 0 <= wday < 7 && Valid(t) && 0 <= t.year + 1900 <= 9999
    ensures Parse(Strftime(wday, t)) == Some(TmToTime(t))
  {
    ScanPrinted(wday, t);
    MonthFound(MonthName(t.mon), t.mon);
    ParseScanned(Strftime(wday, t), Fields(MonthName(t.mon), t.mday, t.year + 1900, t.hour, t.min, t.sec), t.mon);
  }

  lemma ParseScanned(s: string, f: Fields, m: int)
    requires Scan(s) == Some(f) && 0 <= m < 12 && MonthIndex(f.mon, 0) == m
    ensures Parse(s) == Some(TmToTime(Tm(f.year - 1900, m, f.day, f.hour, f.min, f.sec)))
  {
  }

  /** Parsing a printed date gives the second it was printed for, until the end
      of year 9999. */
  lemma RoundTrip(t: nat)
    requires t <= LAST
    ensures Parse(Format(t)) == Some(t)
  {
    FourDigitYears(t);
    GmtimeInverse(t);
    ParsePrinted((t / 86400 + 4) % 7, Gmtime(t));
  }

  // ---- The date cache ----

  class DateCache {
    var cachedTime: int
    var cachedDate: string

    /** A cached text is always the date of the cached time. */
    predicate Valid()
      reads this
    {
      cachedDate != "" ==> 0 <= cachedTime <= LAST && cachedDate == Format(cachedTime)
    }

    constructor ()
      ensures Valid()
    {
      cachedTime, cachedDate := 0, "";
    }

    /** `http_date`: whatever was asked before, the buffer gets the date of `t`.
        A buffer below 30 bytes is left undefined by strftime. */
    method HttpDate(t: nat, dst: array<char>)
      requires Valid() && t <= LAST && dst.Length >= 30
      modifies this, dst
      ensures Valid() && dst[..29] == Format(t) && dst[29] == '\0'
    {
      var text;
      if t != 0 && t == cachedTime && cachedDate != "" {
        text := cachedDate;
      } else {
        text := Format(t);
        if dst.Length >= 64 {
          cachedTime, cachedDate := t, text;
        }
      }
      forall i | 0 <= i < 29 {
        dst[i] := text[i];
      }
      dst[29] := '\0';
      assert dst[..29] == text;
    }

    /** A client that sends back a file's Last-Modified gets 304: the condition
        of line 1911 holds for its own date. */
    method OwnDateNotModified(mtime: nat) returns (notModified: bool)
      requires Valid() && mtime <= LAST
      modifies this
      ensures Valid() && notModified
    {
      var header := new char[100];
      HttpDate(mtime, header);
      var ims := HttpDateParse(header[..29]);
      RoundTrip(mtime);
      notModified := ims.Some? && mtime <= ims.value;
    }
  }

  // ---- Names and the example of section 7.1.1.1 of RFC 7231 ----

  const DAYS := ["Sun", "Mon", "Tue", "Wed", "Thu", "Fri", "Sat"]
  const MONTHS := ["Jan", "Feb", "Mar", "Apr", "May", "Jun", "Jul", "Aug", "Sep", "Oct", "Nov", "Dec"]

  lemma Names(d: nat, m: nat)
    requires d < 7 && m < 12
    ensures DayName(d) == DAYS[d] && MonthName(m) == MONTHS[m]
  {
  }

  const EXAMPLE := Tm(94, 10, 6, 8, 49, 37)

  lemma ExampleTime()
    ensures Valid(EXAMPLE) && TmToTime(EXAMPLE) == 784111777
  {
    DaysSinceMarch(EXAMPLE);
    assert March(1994) == 728293;
  }

  /** The broken-down time of a second is the only one with that second. */
  lemma GmtimeIs(t: nat, x: Tm)
    requires Valid(x) && TmToTime(x) == t
    ensures Gmtime(t) == x
  {
    GmtimeInverse(t);
    StrictlyIncreasing(Gmtime(t), x);
  }

  lemma ExampleText()
    ensures Valid(EXAMPLE) && Strftime(0, EXAMPLE) == "Sun, 06 Nov 1994 08:49:37 GMT"
  {
    ExampleDate();
    ExampleClock();
    assert DayName(0) == "Sun";
    assert "Sun" + (", 06 Nov 1994" + " 08:49:37 GMT") == "Sun, 06 Nov 1994 08:49:37 GMT";
  }

  lemma ExampleDate()
    ensures PrintDate(EXAMPLE) == ", 06 Nov 1994"
  {
    assert Pad2(6) == "06" && Pad4(1994) == "1994" && MonthName(10) == "Nov";
    assert "Nov" + (" " + "1994") == "Nov 1994";
    assert "06" + (" " + "Nov 1994") == "06 Nov 1994";
    assert "," + (" " + "06 Nov 1994") == ", 06 Nov 1994";
  }

  lemma ExampleClock()
    ensures PrintClock(EXAMPLE) == " 08:49:37 GMT"
  {
    assert Pad2(8) == "08" && Pad2(49) == "49" && Pad2(37) == "37";
  }

  lemma FormatIs(t: nat, x: Tm, w: int)
    requires t <= LAST && Valid(x) && TmToTime(x) == t && w == (t / 86400 + 4) % 7 && 0 <= x.year + 1900 <= 9999
    ensures Format(t) == Strftime(w, x)
  {
    GmtimeIs(t, x);
  }

  lemma Example(t: nat)
    requires t == TmToTime(EXAMPLE)
    ensures t == 784111777 && Format(t) == "Sun, 06 Nov 1994 08:49:37 GMT"
  {
    ExampleTime();
    ExampleText();
    FormatIs(t, EXAMPLE, 0);
  }

  lemma FormatDay(t: nat)
    requires t <= LAST
    ensures Format(t)[..3] == DAYS[(t / 86400 + 4) % 7]
  {
    FourDigitYears(t);
    var w := (t / 86400 + 4) % 7;
    Names(w, 0);
    StartsWithDay(w, Gmtime(t));
  }

  lemma StartsWithDay(w: int, x: Tm)
    requires 0 <= w < 7 && Valid(x) && 0 <= x.year + 1900 <= 9999
    ensures Strftime(w, x)[..3] == DayName(w)
  {
  }

  lemma DaysDiffer(d: nat, e: nat)
    requires d < 7 && e < 7 && DAYS[d] == DAYS[e]
    ensures d == e
  {
    assert DAYS[d][0] == DAYS[e][0] && DAYS[d][1] == DAYS[e][1];
  }

  lemma NextDay(t: nat)
    ensures ((t + 86400) / 86400 + 4) % 7 == ((t / 86400 + 4) % 7 + 1) % 7
  {
    assert (t + 86400) / 86400 == t / 86400 + 1;
  }

  /** The names of the days follow one another. */
  lemma DayAfterDay(t: nat, d: nat)
    requires t + 86400 <= LAST && d < 7 && Format(t)[..3] == DAYS[d]
    ensures Format(t + 86400)[..3] == DAYS[(d + 1) % 7]
  {
    FormatDay(t);
    FormatDay(t + 86400);
    DaysDiffer(d, (t / 86400 + 4) % 7);
    NextDay(t);
  }
}
