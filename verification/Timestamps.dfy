/** The text form of times in the Players table: `GetTimestamp` writes it, `GetDateTime` reads
    it back, and the age filter of `LoadDB` compares it with a bare date as text. */
module Timestamps {
  import opened Names
  import opened Options
  import opened Time

  datatype Date = Date(year: int, month: int, day: int)
  datatype Tm = Tm(date: Date, hour: int, minute: int, second: int)

  /** `localtime` and `mktime`. */
  datatype Zone = Zone(local: int -> Tm, make: Tm -> int)

  predicate FourDigits(d: Date) {
    0 <= d.year < 10_000 && 0 <= d.month < 100 && 0 <= d.day < 100
  }

  predicate InRange(tm: Tm) {
    FourDigits(tm.date) && 0 <= tm.hour < 100 && 0 <= tm.minute < 100 && 0 <= tm.second < 100
  }

  /** The zone can express the second and `mktime` undoes `localtime` there. */
  predicate Representable(z: Zone, second: int) {
    InRange(z.local(second)) && z.make(z.local(second)) == second
  }

  // ---------------------------------------------------------------- writing

  function Digit(n: int): char
    requires 0 <= n < 10
  {
    '0' + n as char
  }

  function Pad2(n: int): (s: string)
    requires 0 <= n < 100
    ensures |s| == 2
  {
    [Digit(n / 10), Digit(n % 10)]
  }

  function Pad4(n: int): (s: string)
    requires 0 <= n < 10_000
    ensures |s| == 4
  {
    Pad2(n / 100) + Pad2(n % 100)
  }

  /** `std::to_string`, without padding. */
  function Decimal(n: nat): string {
    if n < 10 then [Digit(n)] else Decimal(n / 10) + [Digit(n % 10)]
  }

  function DateText(d: Date): string
    requires FourDigits(d)
  {
    Pad4(d.year) + ("-" + (Pad2(d.month) + ("-" + Pad2(d.day))))
  }

  function ClockText(tm: Tm, ms: nat): string
    requires InRange(tm)
  {
    " " + (Pad2(tm.hour) + (":" + (Pad2(tm.minute) + (":" + (Pad2(tm.second) + ("." + Decimal(ms)))))))
  }

  function GetTimestamp(z: Zone, t: int): string
    requires t >= 0 && Representable(z, t / TICKS_PER_SECOND)
  {
    var second := Truncate(t, TICKS_PER_SECOND);
    var ms := Truncate(t - second * TICKS_PER_SECOND, TICKS_PER_MILLISECOND);
    DateText(z.local(second).date) + ClockText(z.local(second), ms)
  }

  // ---------------------------------------------------------------- reading

  predicate IsDigit(c: char) {
    '0' <= c <= '9'
  }

  /** Up to `width` digits; the value so far is `acc`. */
  function ScanDigits(s: string, width: nat, acc: int): (int, string) {
    if width == 0 || s == [] || !IsDigit(s[0]) then (acc, s)
    else ScanDigits(s[1..], width - 1, acc * 10 + (s[0] - '0') as int)
  }

  function SkipSpace(s: string): string {
    if s != [] && s[0] in " \t\r\n" then SkipSpace(s[1..]) else s
  }

  /** One `%<width>d` of `sscanf`. */
  function ScanInt(s: string, width: nat): Option<(int, string)> {
    var t := SkipSpace(s);
    if width > 0 && t != [] && IsDigit(t[0]) then Some(ScanDigits(t, width, 0))
    else if width > 1 && |t| > 1 && t[0] in "+-" && IsDigit(t[1]) then
      var (v, rest) := ScanDigits(t[1..], width - 1, 0);
      Some((if t[0] == '-' then -v else v, rest))
    else None
  }

  /** A literal character of the format; a blank matches any white space, even none. */
  function ScanChar(s: string, c: char): Option<string> {
    if c == ' ' then Some(SkipSpace(s))
    else if s != [] && s[0] == c then Some(s[1..])
    else None
  }

  /** A field and the separator before it. */
  function ScanField(s: string, c: char, width: nat): Option<(int, string)> {
    match ScanChar(s, c)
    case None => None
    case Some(rest) => ScanInt(rest, width)
  }

  /** `sscanf` with "%4d-%2d-%2d %2d:%2d:%2d.%3d". */
  function Scan(s: string): Option<(Tm, int)> {
    match ScanInt(s, 4)
    case None => None
    case Some((year, s1)) =>
    match ScanField(s1, '-', 2)
    case None => None
    case Some((month, s2)) =>
    match ScanField(s2, '-', 2)
    case None => None
    case Some((day, s3)) =>
    match ScanField(s3, ' ', 2)
    case None => None
    case Some((hour, s4)) =>
    match ScanField(s4, ':', 2)
    case None => None
    case Some((minute, s5)) =>
    match ScanField(s5, ':', 2)
    case None => None
    case Some((second, s6)) =>
    match ScanField(s6, '.', 3)
    case None => None
    case Some((ms, _)) => Some((Tm(Date(year, month, day), hour, minute, second), ms))
  }

  function GetDateTime(z: Zone, s: string): Option<int> {
    match Scan(s)
    case None => None
    case Some((tm, ms)) => Some(z.make(tm) * TICKS_PER_SECOND + ms * TICKS_PER_MILLISECOND)
  }

  // ---------------------------------------------------------------- the round trip

  lemma {:induction false} ScanPad2(n: int, rest: string, width: nat, acc: int)
    requires 0 <= n < 100 && width >= 2
    ensures ScanDigits(Pad2(n) + rest, width, acc) == ScanDigits(rest, width - 2, acc * 100 + n)
  {
  }

  lemma {:induction false} NoSpaceBeforeDigit(s: string)
    requires s != [] && IsDigit(s[0])
    ensures SkipSpace(s) == s
  {
  }

  lemma {:induction false} FieldBack(c: char, n: int, rest: string)
    requires 0 <= n < 100
    ensures ScanField([c] + (Pad2(n) + rest), c, 2) == Some((n, rest))
  {
    var body := Pad2(n) + rest;
    var s := [c] + body;
    assert s[1..] == body;
    NoSpaceBeforeDigit(body);
    ScanPad2(n, rest, 2, 0);
    if c == ' ' {
      assert SkipSpace(s) == SkipSpace(s[1..]);
    }
  }

  lemma {:induction false} YearBack(n: int, rest: string)
    requires 0 <= n < 10_000
    ensures ScanInt(Pad4(n) + rest, 4) == Some((n, rest))
  {
    var tail := Pad2(n % 100) + rest;
    assert Pad4(n) + rest == Pad2(n / 100) + tail;
    NoSpaceBeforeDigit(Pad2(n / 100) + tail);
    ScanPad2(n / 100, tail, 4, 0);
    ScanPad2(n % 100, rest, 2, n / 100);
  }

  lemma {:induction false} MillisBack(n: nat)
    requires n < 1000
    ensures ScanField("." + Decimal(n), '.', 3) == Some((n, ""))
  {
    assert ("." + Decimal(n))[1..] == Decimal(n);
    if n < 10 {
      DigitsBack1(n);
    } else if n < 100 {
      assert Decimal(n / 10) == [Digit(n / 10)];
      assert Decimal(n) == Pad2(n) + [];
      ScanPad2(n, [], 3, 0);
    } else {
      assert Decimal(n / 10 / 10) == [Digit(n / 100)];
      assert Decimal(n / 10) == [Digit(n / 100), Digit(n / 10 % 10)];
      assert Decimal(n) == [Digit(n / 100)] + (Pad2(n % 100) + []);
      var s := Decimal(n);
      assert s[1..] == Pad2(n % 100) + [];
      assert (s[0] - '0') as int == n / 100;
      ScanPad2(n % 100, [], 2, n / 100);
    }
    NoSpaceBeforeDigit(Decimal(n));
  }

  lemma {:induction false} DigitsBack1(n: nat)
    requires n < 10
    ensures ScanDigits(Decimal(n), 3, 0) == (n, "")
  {
  }

  /** Reading undoes writing: the unpadded milliseconds are read back as the same number. */
  lemma {:induction false} ScanUndoesText(tm: Tm, ms: nat)
    requires InRange(tm) && ms < 1000
    ensures Scan(DateText(tm.date) + ClockText(tm, ms)) == Some((tm, ms))
  {
    var s6 := "." + Decimal(ms);
    var s5 := ":" + (Pad2(tm.second) + s6);
    var s4 := ":" + (Pad2(tm.minute) + s5);
    var s3 := " " + (Pad2(tm.hour) + s4);
    var s2 := "-" + (Pad2(tm.date.day) + s3);
    var s1 := "-" + (Pad2(tm.date.month) + s2);
    assert ClockText(tm, ms) == s3;
    TextSplit(tm.date, s3);
    YearBack(tm.date.year, s1);
    FieldBack('-', tm.date.month, s2);
    FieldBack('-', tm.date.day, s3);
    FieldBack(' ', tm.hour, s4);
    FieldBack(':', tm.minute, s5);
    FieldBack(':', tm.second, s6);
    MillisBack(ms);
  }

  lemma {:induction false} TextSplit(d: Date, rest: string)
    requires FourDigits(d)
    ensures DateText(d) + rest == Pad4(d.year) + ("-" + (Pad2(d.month) + ("-" + (Pad2(d.day) + rest))))
  {
  }

  /** `GetDateTime` undoes `GetTimestamp` up to truncation to milliseconds. */
  lemma {:induction false} TimestampRoundTrip(z: Zone, t: int)
    requires t >= 0 && Representable(z, t / TICKS_PER_SECOND)
    ensures GetDateTime(z, GetTimestamp(z, t)) == Some(t - t % TICKS_PER_MILLISECOND)
  {
    hide Scan, DateText, ClockText;
    var second := t / TICKS_PER_SECOND;
    var ms := Millis(t);
    ScanUndoesText(z.local(second), ms);
  }

  lemma Millis(t: int) returns (ms: nat)
    requires t >= 0
    ensures ms == Truncate(t - Truncate(t, TICKS_PER_SECOND) * TICKS_PER_SECOND, TICKS_PER_MILLISECOND) < 1000
    ensures Truncate(t, TICKS_PER_SECOND) == t / TICKS_PER_SECOND
    ensures t / TICKS_PER_SECOND * TICKS_PER_SECOND + ms * TICKS_PER_MILLISECOND == t - t % TICKS_PER_MILLISECOND
  {
    ms := (t - t / TICKS_PER_SECOND * TICKS_PER_SECOND) / TICKS_PER_MILLISECOND;
  }

  // ---------------------------------------------------------------- text order

  lemma {:induction false} LessConcat(a: string, b: string, x: string, y: string)
    requires |a| == |b|
    ensures Less(a + x, b + y) <==> Less(a, b) || (a == b && Less(x, y))
  {
    if a == [] {
      assert a + x == x && b + y == y;
    } else {
      assert (a + x)[1..] == a[1..] + x && (b + y)[1..] == b[1..] + y;
      LessConcat(a[1..], b[1..], x, y);
      assert a == b <==> a[0] == b[0] && a[1..] == b[1..] by {
        if a[0] == b[0] && a[1..] == b[1..] {
          assert a == [a[0]] + a[1..] && b == [b[0]] + b[1..];
        }
      }
    }
  }

  lemma {:induction false} LessPad2(m: int, n: int)
    requires 0 <= m < 100 && 0 <= n < 100
    ensures Less(Pad2(m), Pad2(n)) <==> m < n
    ensures Pad2(m) == Pad2(n) <==> m == n
  {
    var a, b := Pad2(m), Pad2(n);
    assert a[1..] == [Digit(m % 10)] && b[1..] == [Digit(n % 10)];
    assert a[1..][1..] == [] && b[1..][1..] == [];
    assert Less(a[1..], b[1..]) <==> a[1..][0] < b[1..][0] by {
      assert !Less(a[1..][1..], b[1..][1..]);
    }
    assert a[0] < b[0] <==> m / 10 < n / 10;
    assert a[1] < b[1] <==> m % 10 < n % 10;
  }

  lemma {:induction false} LessPad4(m: int, n: int)
    requires 0 <= m < 10_000 && 0 <= n < 10_000
    ensures Less(Pad4(m), Pad4(n)) <==> m < n
    ensures Pad4(m) == Pad4(n) <==> m == n
  {
    LessConcat(Pad2(m / 100), Pad2(n / 100), Pad2(m % 100), Pad2(n % 100));
    LessPad2(m / 100, n / 100);
    LessPad2(m % 100, n % 100);
    if Pad4(m) == Pad4(n) {
      assert Pad4(m)[..2] == Pad2(m / 100) && Pad4(m)[2..] == Pad2(m % 100);
      assert Pad4(n)[..2] == Pad2(n / 100) && Pad4(n)[2..] == Pad2(n % 100);
    }
  }

  predicate Earlier(a: Date, b: Date) {
    a.year < b.year || (a.year == b.year && (a.month < b.month || (a.month == b.month && a.day < b.day)))
  }

  lemma {:induction false} LessSeparated(c: string, x: string, y: string)
    ensures Less(c + x, c + y) <==> Less(x, y)
  {
    LessConcat(c, c, x, y);
    LessIrreflexive(c);
  }

  /** Dates of four-digit years order as their texts do. */
  lemma {:induction false} LessDates(a: Date, b: Date)
    requires FourDigits(a) && FourDigits(b)
    ensures Less(DateText(a), DateText(b)) <==> Earlier(a, b)
    ensures DateText(a) == DateText(b) <==> a == b
  {
    var x3, y3 := Pad2(a.day), Pad2(b.day);
    var x2, y2 := Pad2(a.month) + ("-" + x3), Pad2(b.month) + ("-" + y3);
    LessPad4(a.year, b.year);
    LessPad2(a.month, b.month);
    LessPad2(a.day, b.day);
    LessConcat(Pad4(a.year), Pad4(b.year), "-" + x2, "-" + y2);
    LessSeparated("-", x2, y2);
    LessConcat(Pad2(a.month), Pad2(b.month), "-" + x3, "-" + y3);
    LessSeparated("-", x3, y3);
    if DateText(a) == DateText(b) {
      assert DateText(a)[..4] == Pad4(a.year) && DateText(b)[..4] == Pad4(b.year);
      assert DateText(a)[5..7] == Pad2(a.month) && DateText(b)[5..7] == Pad2(b.month);
      assert DateText(a)[8..] == Pad2(a.day) && DateText(b)[8..] == Pad2(b.day);
    }
  }

  /** The age filter: a time stamp is after a bare date as text exactly when its day is not
      before that date; the same day counts because the longer text is greater. */
  lemma {:induction false} FilterIsByDay(cutoff: Date, tm: Tm, ms: nat)
    requires FourDigits(cutoff) && InRange(tm)
    ensures Less(DateText(cutoff), DateText(tm.date) + ClockText(tm, ms)) <==> !Earlier(tm.date, cutoff)
  {
    var a, b := DateText(cutoff), DateText(tm.date);
    LessConcat(a, b, [], ClockText(tm, ms));
    assert a + [] == a;
    LessDates(cutoff, tm.date);
  }
}
