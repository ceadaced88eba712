/** Calendar dates written `YYYY-MM-DD` (the `full-date` form of section 5.6
    of RFC 3339): the search `re.search(r"\d{4}-\d{2}-\d{2}", s)` used
    throughout the core, Python's `date.fromisoformat` on such a match, and
    `date.isoformat`. */
module IsoDate {
  import opened Base
  import opened Text

  /** `\d{4}-\d{2}-\d{2}` matches `s` at position `k`. */
  predicate DateAt(s: string, k: int) {
    && 0 <= k && k + 10 <= |s|
    && IsDigit(s[k]) && IsDigit(s[k + 1]) && IsDigit(s[k + 2]) && IsDigit(s[k + 3])
    && s[k + 4] == '-'
    && IsDigit(s[k + 5]) && IsDigit(s[k + 6])
    && s[k + 7] == '-'
    && IsDigit(s[k + 8]) && IsDigit(s[k + 9])
  }

  /** The start of the leftmost `\d{4}-\d{2}-\d{2}` match, if there is one. */
  function FindDate(s: string): (r: Option<nat>)
    ensures r.Some? ==> DateAt(s, r.value)
    ensures r.Some? ==> forall k :: 0 <= k < r.value ==> !DateAt(s, k)
    ensures r.None? ==> forall k :: 0 <= k < |s| ==> !DateAt(s, k)
  {
    FindDateFrom(s, 0)
  }

  function FindDateFrom(s: string, i: nat): (r: Option<nat>)
    requires forall k :: 0 <= k < i ==> !DateAt(s, k)
    ensures r.Some? ==> i <= r.value && DateAt(s, r.value)
    ensures r.Some? ==> forall k :: 0 <= k < r.value ==> !DateAt(s, k)
    ensures r.None? ==> forall k :: 0 <= k < |s| ==> !DateAt(s, k)
    decreases |s| - i
  {
    if i + 10 > |s| then None
    else if DateAt(s, i) then Some(i)
    else FindDateFrom(s, i + 1)
  }

  /** `date_match.group(0)`: the text of the leftmost match. */
  function FirstDateText(s: string): (r: Option<string>)
    ensures r.Some? <==> FindDate(s).Some?
    ensures r.Some? ==> |r.value| == 10 && DateAt(r.value, 0)
  {
    match FindDate(s)
    case None => None
    case Some(k) => Some(s[k..k + 10])
  }

  datatype Date = Date(year: int, month: int, day: int)

  predicate IsLeapYear(y: int) {
    y % 4 == 0 && (y % 100 != 0 || y % 400 == 0)
  }

  function DaysInMonth(y: int, m: int): int
    requires 1 <= m <= 12
  {
    if m == 2 then (if IsLeapYear(y) then 29 else 28)
    else if m == 4 || m == 6 || m == 9 || m == 11 then 30
    else 31
  }

  /** The dates Python's `datetime.date` can represent. */
  predicate ValidDate(d: Date) {
    && 1 <= d.year <= 9999
    && 1 <= d.month <= 12
    && 1 <= d.day <= DaysInMonth(d.year, d.month)
  }

  function DigitValue(c: char): int {
    c as int - '0' as int
  }

  function DigitChar(n: int): char
    requires 0 <= n <= 9
  {
    ('0' as int + n) as char
  }

  /** The three numbers a `YYYY-MM-DD` text spells, valid or not. */
  function Fields(s: string): Date
    requires DateAt(s, 0)
  {
    Date(1000 * DigitValue(s[0]) + 100 * DigitValue(s[1]) + 10 * DigitValue(s[2]) + DigitValue(s[3]),
         10 * DigitValue(s[5]) + DigitValue(s[6]),
         10 * DigitValue(s[8]) + DigitValue(s[9]))
  }

  /** `date.fromisoformat(s)` for a ten-character `YYYY-MM-DD` text: the
      date it spells, or `ValueError` when that is not a calendar date. */
  function FromIsoFormat(s: string): (r: Result<Date>)
    requires |s| == 10 && DateAt(s, 0)
    ensures r.Ok? <==> ValidDate(Fields(s))
    ensures r.Ok? ==> r.value == Fields(s)
  {
    var d := Fields(s);
    if d.year < 1 then Err(ValueError("year 0 is out of range"))
    else if !(1 <= d.month <= 12) then Err(ValueError("month must be in 1..12"))
    else if !(1 <= d.day <= DaysInMonth(d.year, d.month)) then Err(ValueError("day is out of range for month"))
    else Ok(d)
  }

  /** `date.isoformat()`: `%04d-%02d-%02d`. */
  function IsoFormat(d: Date): (r: string)
    requires ValidDate(d)
    ensures |r| == 10 && DateAt(r, 0)
  {
    [DigitChar(d.year / 1000), DigitChar(d.year / 100 % 10), DigitChar(d.year / 10 % 10), DigitChar(d.year % 10),
     '-', DigitChar(d.month / 10), DigitChar(d.month % 10),
     '-', DigitChar(d.day / 10), DigitChar(d.day % 10)]
  }

  lemma FourDigits(a: int, b: int, c: int, d: int)
    requires 0 <= a <= 9 && 0 <= b <= 9 && 0 <= c <= 9 && 0 <= d <= 9
    ensures var n := 1000 * a + 100 * b + 10 * c + d;
            n / 1000 == a && n / 100 % 10 == b && n / 10 % 10 == c && n % 10 == d
  {
    var n := 1000 * a + 100 * b + 10 * c + d;
    assert n / 10 == 100 * a + 10 * b + c;
    assert n / 100 == 10 * a + b;
  }

  /** Formatting a parsed date gives back the very text that was parsed. */
  lemma IsoFormatFromIsoFormat(s: string)
    requires |s| == 10 && DateAt(s, 0)
    requires FromIsoFormat(s).Ok?
    ensures IsoFormat(FromIsoFormat(s).value) == s
  {
    FourDigits(DigitValue(s[0]), DigitValue(s[1]), DigitValue(s[2]), DigitValue(s[3]));
    FourDigits(0, 0, DigitValue(s[5]), DigitValue(s[6]));
    FourDigits(0, 0, DigitValue(s[8]), DigitValue(s[9]));
    var r := IsoFormat(FromIsoFormat(s).value);
    assert forall i :: 0 <= i < 10 ==> r[i] == s[i];
  }

  /** And parsing a formatted date gives back the date. */
  lemma FromIsoFormatIsoFormat(d: Date)
    requires ValidDate(d)
    ensures FromIsoFormat(IsoFormat(d)) == Ok(d)
  {
    var s := IsoFormat(d);
    DigitsOf(d.year);
    DigitsOf(d.month);
    DigitsOf(d.day);
    assert Fields(s) == d;
  }

  lemma DigitsOf(n: int)
    requires 0 <= n <= 9999
    ensures n == 1000 * (n / 1000) + 100 * (n / 100 % 10) + 10 * (n / 10 % 10) + n % 10
    ensures n <= 99 ==> n == 10 * (n / 10) + n % 10 && n / 10 <= 9
  {
    var q := n / 10;
    assert n == 10 * q + n % 10;
    var q2 := q / 10;
    assert q == 10 * q2 + q % 10;
    assert q2 == n / 100;
    assert q2 == 10 * (q2 / 10) + q2 % 10;
    assert q2 / 10 == n / 1000;
  }
}
