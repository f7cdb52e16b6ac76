/** DateTime::parse, which formats a date by a pattern, and the timestamps made with it. */
module DateFormat {

  import opened Bytes

  /** A DateTime's bytes, and what the C library derives from them. */
  datatype Clock = Clock(year: Byte, month: Byte, day: Byte, hour: Byte, minute: Byte, second: Byte,
                         dayOfWeek: nat, dayOfYear: nat, weekOfYear: nat)

  function Digit(n: nat): char
    requires n < 10
  {
    (n + '0' as int) as char
  }

  function Digits(n: nat): string {
    if n < 10 then [Digit(n)] else Digits(n / 10) + [Digit(n % 10)]
  }

  /** setfill('0') and setw(2). */
  function Two(n: nat): string {
    if n < 10 then "0" + Digits(n) else Digits(n)
  }

  function WeekdayName(day: int): string {
    match day
    case 0 => "Sunday"
    case 1 => "Monday"
    case 2 => "Tuesday"
    case 3 => "Wednesday"
    case 4 => "Thursday"
    case 5 => "Friday"
    case 6 => "Saturday"
    case _ => ""
  }

  function MonthName(month: int): string {
    match month
    case 0 => "January"
    case 1 => "February"
    case 2 => "March"
    case 3 => "April"
    case 4 => "May"
    case 5 => "June"
    case 6 => "July"
    case 7 => "August"
    case 8 => "September"
    case 9 => "October"
    case 10 => "November"
    case 11 => "December"
    case _ => ""
  }

  /** substr(0, 3). */
  function Short(s: string): string {
    if |s| < 3 then s else s[..3]
  }

  function Year(c: Clock): nat {
    c.year + 1900
  }

  /** What one symbol after '%' writes. */
  function Symbol(symbol: char, c: Clock): string {
    match symbol
    case 'a' => Short(WeekdayName(c.dayOfWeek))
    case 'A' => WeekdayName(c.day)
    case 'b' => Short(MonthName(c.month))
    case 'B' => MonthName(c.month)
    case 'c' => ""
    case 'd' => Two(c.day)
    case 'H' => Two(c.hour)
    case 'I' => Two(if c.hour % 12 == 0 then 12 else c.hour % 12)
    case 'j' => Digits(c.dayOfYear)
    case 'm' => Two(c.month + 1)
    case 'M' => Two(c.minute)
    case 'p' => if c.hour < 12 then "AM" else "PM"
    case 'S' => Two(c.second)
    case 'U' => Digits(c.weekOfYear)
    case 'w' => WeekdayName(c.dayOfWeek)
    case 'W' => Digits(0)
    case 'x' => ""
    case 'X' => ""
    case 'y' => Two(Year(c) % 100)
    case 'Y' => Digits(Year(c))
    case 'Z' => ""
    case '%' => "%"
    case _ => ['%', symbol]
  }

  function Format(format: string, c: Clock): string {
    if format == "" then ""
    else if format[0] != '%' then [format[0]] + Format(format[1..], c)
    else if |format| == 1 then ""
    else Symbol(format[1], c) + Format(format[2..], c)
  }

  method Parse(format: string, c: Clock) returns (buffer: string)
    ensures buffer == Format(format, c)
  {
    hide Symbol;
    buffer := "";
    var pos := 0;
    assert format[0..] == format;
    while pos < |format|
      invariant pos <= |format|
      invariant buffer + Format(format[pos..], c) == Format(format, c)
      decreases |format| - pos
    {
      ghost var rest := format[pos..];
      if format[pos] == '%' {
        pos := pos + 1;
        if pos >= |format| { break; }
        assert rest[2..] == format[pos + 1..];
        buffer := buffer + Symbol(format[pos], c);
      } else {
        assert rest[1..] == format[pos + 1..];
        buffer := buffer + [format[pos]];
      }
      pos := pos + 1;
    }
  }

  // ----- Formats in two parts -----

  /** The format does not end in a '%' that begins a symbol. */
  predicate Complete(format: string) {
    format == "" ||
    if format[0] != '%' then Complete(format[1..]) else |format| > 1 && Complete(format[2..])
  }

  lemma {:induction false} FormatInParts(f: string, g: string, c: Clock)
    requires Complete(f)
    ensures Format(f + g, c) == Format(f, c) + Format(g, c)
  {
    hide Symbol;
    if f == "" {
      assert f + g == g;
    } else if f[0] != '%' {
      assert (f + g)[1..] == f[1..] + g;
      FormatInParts(f[1..], g, c);
    } else {
      assert (f + g)[2..] == f[2..] + g;
      FormatInParts(f[2..], g, c);
    }
  }

  lemma {:induction false} DanglingSymbol(f: string, g: char, c: Clock)
    requires !Complete(f)
    ensures Format(f + [g], c) == Format(f, c) + Symbol(g, c)
  {
    hide Symbol;
    if f[0] != '%' {
      assert (f + [g])[1..] == f[1..] + [g];
      DanglingSymbol(f[1..], g, c);
    } else if |f| == 1 {
      assert (f + [g])[2..] == "" && (f + [g])[1] == g;
      assert "" + Symbol(g, c) == Symbol(g, c) + "";
    } else {
      assert (f + [g])[2..] == f[2..] + [g];
      DanglingSymbol(f[2..], g, c);
    }
  }

  lemma {:induction false} PlainText(f: string, c: Clock)
    requires '%' !in f
    ensures Complete(f) && Format(f, c) == f
  {
    if f != "" {
      assert f[0] in f && f == [f[0]] + f[1..];
      PlainText(f[1..], c);
    }
  }

  /** Plain text is kept, with or without a '%' at its end, and '%' with a symbol writes the symbol. */
  lemma PlainFormat(f: string, symbol: char, c: Clock)
    requires '%' !in f
    ensures Format(f, c) == f && Format(f + "%", c) == f && Format(f + ['%', symbol], c) == f + Symbol(symbol, c)
  {
    hide Symbol;
    var g := ['%', symbol];
    PlainText(f, c);
    FormatInParts(f, "%", c);
    FormatInParts(f, g, c);
    assert Symbol(symbol, c) + "" == Symbol(symbol, c);
    assert Format("%", c) == "" && Format(g, c) == Symbol(symbol, c) + Format(g[2..], c);
  }

  /** Formatting distributes over every continuation of a format exactly when the format does
      not end in a dangling '%'. */
  lemma FormatDistributes(f: string, c: Clock)
    ensures Complete(f) <==> forall g :: Format(f + g, c) == Format(f, c) + Format(g, c)
  {
    if Complete(f) {
      forall g ensures Format(f + g, c) == Format(f, c) + Format(g, c) { FormatInParts(f, g, c); }
    } else {
      DanglingSymbol(f, 'c', c);
      assert Format("c", c) == ['c'] + Format("c"[1..], c);
      assert |Format(f + "c", c)| == |Format(f, c)|;
    }
  }

  /** The full weekday is right only when the day of the week happens to be the day of the month. */
  lemma FullWeekdayIsMonthDay(c: Clock)
    requires c.dayOfWeek < 7
    ensures Symbol('A', c) == WeekdayName(c.dayOfWeek) <==> c.day == c.dayOfWeek
  {
    var a, b := WeekdayName(c.day), WeekdayName(c.dayOfWeek);
    if a == b && a != [] {
      assert a[0] == b[0] && a[1] == b[1];
    }
  }

  // ----- Timestamps -----

  /** The format of encodeDateTime. */
  const STAMP := "%Y-%m-%d %H:%M:%S"

  predicate InRange(c: Clock) {
    c.month < 12 && 1 <= c.day <= 31 && c.hour < 24 && c.minute < 60 && c.second <= 60
  }

  /** A symbol followed by a plain character. */
  lemma FormatField(symbol: char, mark: char, rest: string, c: Clock)
    requires mark != '%'
    ensures Format(['%', symbol, mark] + rest, c) == Symbol(symbol, c) + ([mark] + Format(rest, c))
  {
  }

  lemma StampSymbols(c: Clock)
    ensures Symbol('Y', c) == Digits(Year(c)) && Symbol('m', c) == Two(c.month + 1) && Symbol('d', c) == Two(c.day)
    ensures Symbol('H', c) == Two(c.hour) && Symbol('M', c) == Two(c.minute) && Symbol('S', c) == Two(c.second)
  {
  }

  lemma StampParts()
    ensures STAMP == ['%', 'Y', '-'] + (['%', 'm', '-'] + (['%', 'd', ' '] + (['%', 'H', ':'] + (['%', 'M', ':'] + "%S"))))
  {
  }

  lemma StampFields(c: Clock)
    ensures Format(STAMP, c) ==
            Digits(Year(c)) + ("-" + (Two(c.month + 1) + ("-" + (Two(c.day) + (" " +
            (Two(c.hour) + (":" + (Two(c.minute) + (":" + Two(c.second))))))))))
  {
    assert Format("%S", c) == Symbol('S', c) + Format("%S"[2..], c) == Symbol('S', c);
    hide Digits, Two, Symbol, Format;
    StampSymbols(c);
    StampParts();
    var s4 := ['%', 'M', ':'] + "%S";
    var s3 := ['%', 'H', ':'] + s4;
    var s2 := ['%', 'd', ' '] + s3;
    var s1 := ['%', 'm', '-'] + s2;
    FormatField('Y', '-', s1, c);
    FormatField('m', '-', s2, c);
    FormatField('d', ' ', s3, c);
    FormatField('H', ':', s4, c);
    FormatField('M', ':', "%S", c);
  }

  /** Lexicographic order, as the database sorts text. */
  predicate LexLess(s: string, t: string) {
    t != "" && (s == "" || s[0] < t[0] || (s[0] == t[0] && LexLess(s[1..], t[1..])))
  }

  lemma {:induction false} LexConcat(a: string, b: string, x: string, y: string)
    requires |a| == |x|
    ensures LexLess(a + b, x + y) <==> LexLess(a, x) || (a == x && LexLess(b, y))
  {
    if a == "" {
      assert a + b == b && x + y == y;
    } else {
      assert (a + b)[1..] == a[1..] + b && (x + y)[1..] == x[1..] + y;
      LexConcat(a[1..], b, x[1..], y);
      assert a == [a[0]] + a[1..] && x == [x[0]] + x[1..];
    }
  }

  lemma {:induction false} LexIrreflexive(s: string)
    ensures !LexLess(s, s)
  {
    if s != "" { LexIrreflexive(s[1..]); }
  }

  /** Numbers written with equally many digits sort as numbers. */
  lemma {:induction false} DigitsOrder(m: nat, n: nat)
    requires |Digits(m)| == |Digits(n)|
    ensures LexLess(Digits(m), Digits(n)) <==> m < n
    ensures Digits(m) == Digits(n) ==> m == n
  {
    if m < 10 {
      assert n < 10;
    } else {
      assert n >= 10;
      DigitsOrder(m / 10, n / 10);
      LexConcat(Digits(m / 10), [Digit(m % 10)], Digits(n / 10), [Digit(n % 10)]);
      if Digits(m) == Digits(n) {
        assert Digits(m)[|Digits(m)| - 1] == Digit(m % 10) && Digits(m)[..|Digits(m)| - 1] == Digits(m / 10);
        assert Digits(n)[|Digits(n)| - 1] == Digit(n % 10) && Digits(n)[..|Digits(n)| - 1] == Digits(n / 10);
      }
    }
  }

  lemma TwoDigits(n: nat)
    requires n < 100
    ensures Two(n) == [Digit(n / 10)] + [Digit(n % 10)]
  {
    if n >= 10 { assert Digits(n / 10) == [Digit(n / 10)]; }
  }

  lemma TwoOrder(m: nat, n: nat)
    requires m < 100 && n < 100
    ensures |Two(m)| == |Two(n)| == 2
    ensures LexLess(Two(m), Two(n)) <==> m < n
    ensures Two(m) == Two(n) ==> m == n
  {
    TwoDigits(m);
    TwoDigits(n);
    hide Two;
    LexConcat([Digit(m / 10)], [Digit(m % 10)], [Digit(n / 10)], [Digit(n % 10)]);
  }

  lemma YearOrder(c: Clock, e: Clock)
    ensures |Digits(Year(c))| == |Digits(Year(e))| == 4
    ensures LexLess(Digits(Year(c)), Digits(Year(e))) <==> c.year < e.year
    ensures Digits(Year(c)) == Digits(Year(e)) ==> c.year == e.year
  {
    FourDigits(Year(c));
    FourDigits(Year(e));
    DigitsOrder(Year(c), Year(e));
  }

  lemma FourDigits(n: nat)
    requires 1000 <= n < 10000
    ensures |Digits(n)| == 4
  {
    var a := n / 10;
    var b := a / 10;
    var c := b / 10;
    assert 1 <= c < 10 <= b < 100 <= a < 1000;
    assert |Digits(c)| == 1;
    assert |Digits(b)| == |Digits(c)| + 1;
    assert |Digits(a)| == |Digits(b)| + 1;
  }

  predicate Before(c: Clock, e: Clock) {
    c.year < e.year || (c.year == e.year &&
    (c.month < e.month || (c.month == e.month &&
    (c.day < e.day || (c.day == e.day &&
    (c.hour < e.hour || (c.hour == e.hour &&
    (c.minute < e.minute || (c.minute == e.minute && c.second < e.second)))))))))
  }

  /** A field, the mark after it, and the fields that follow. */
  lemma FieldOrder(a: string, x: string, mark: string, b: string, y: string)
    requires |a| == |x|
    ensures LexLess(a + (mark + b), x + (mark + y)) <==> LexLess(a, x) || (a == x && LexLess(b, y))
    ensures a + (mark + b) == x + (mark + y) <==> a == x && b == y
  {
    LexConcat(a, mark + b, x, mark + y);
    LexConcat(mark, b, mark, y);
    LexIrreflexive(mark);
    if a + (mark + b) == x + (mark + y) {
      assert (a + (mark + b))[..|a|] == a && (a + (mark + b))[|a|..] == mark + b;
      assert (x + (mark + y))[..|a|] == x && (x + (mark + y))[|a|..] == mark + y;
      assert (mark + b)[|mark|..] == b && (mark + y)[|mark|..] == y;
    }
  }

  /** Timestamps of dates in range sort in time order, and only equal times share one. */
  lemma StampsSortByTime(c: Clock, e: Clock)
    requires InRange(c) && InRange(e)
    ensures LexLess(Format(STAMP, c), Format(STAMP, e)) <==> Before(c, e)
    ensures Format(STAMP, c) == Format(STAMP, e) <==>
            c.year == e.year && c.month == e.month && c.day == e.day
            && c.hour == e.hour && c.minute == e.minute && c.second == e.second
  {
    hide Digits, Two, Format, LexLess;
    StampFields(c);
    StampFields(e);
    YearOrder(c, e);
    TwoOrder(c.month + 1, e.month + 1);
    TwoOrder(c.day, e.day);
    TwoOrder(c.hour, e.hour);
    TwoOrder(c.minute, e.minute);
    TwoOrder(c.second, e.second);
    var c4, e4 := Two(c.minute) + (":" + Two(c.second)), Two(e.minute) + (":" + Two(e.second));
    var c3, e3 := Two(c.hour) + (":" + c4), Two(e.hour) + (":" + e4);
    var c2, e2 := Two(c.day) + (" " + c3), Two(e.day) + (" " + e3);
    var c1, e1 := Two(c.month + 1) + ("-" + c2), Two(e.month + 1) + ("-" + e2);
    FieldOrder(Two(c.minute), Two(e.minute), ":", Two(c.second), Two(e.second));
    FieldOrder(Two(c.hour), Two(e.hour), ":", c4, e4);
    FieldOrder(Two(c.day), Two(e.day), " ", c3, e3);
    FieldOrder(Two(c.month + 1), Two(e.month + 1), "-", c2, e2);
    FieldOrder(Digits(Year(c)), Digits(Year(e)), "-", c1, e1);
  }

  // ----- The text read back -----

  /** The number that a text of decimal digits stands for. */
  function Value(s: string): int {
    if s == "" then 0 else 10 * Value(s[..|s| - 1]) + (s[|s| - 1] as int - 48)
  }

  ghost predicate IsNumeral(s: string, n: nat) {
    s != "" && (forall i :: 0 <= i < |s| ==> '0' <= s[i] <= '9') && Value(s) == n
  }

  lemma {:induction false} DigitsMean(n: nat)
    ensures IsNumeral(Digits(n), n) && (n > 0 ==> Digits(n)[0] != '0')
  {
    if n < 10 {
      assert [Digit(n)][..0] == "";
    } else {
      DigitsMean(n / 10);
      var s := Digits(n);
      assert s[..|s| - 1] == Digits(n / 10) && s[|s| - 1] == Digit(n % 10);
    }
  }

  lemma TwoMeans(n: nat)
    requires n < 100
    ensures |Two(n)| == 2 && IsNumeral(Two(n), n)
  {
    TwoDigits(n);
    var s, tens := Two(n), [Digit(n / 10)];
    assert s[..|s| - 1] == tens && tens[..0] == "";
    assert Value(tens) == n / 10;
  }

  const WEEKDAYS := ["Sunday", "Monday", "Tuesday", "Wednesday", "Thursday", "Friday", "Saturday"]
  const MONTHS := ["January", "February", "March", "April", "May", "June", "July", "August", "September", "October",
                   "November", "December"]

  /** The symbols that write a name; the full weekday is that of the day of the month. */
  lemma WeekdaySymbols(c: Clock)
    requires c.dayOfWeek < 7
    ensures Symbol('w', c) == WEEKDAYS[c.dayOfWeek] && Symbol('a', c) == WEEKDAYS[c.dayOfWeek][..3]
    ensures Symbol('A', c) == if c.day < 7 then WEEKDAYS[c.day] else ""
  {
    NameOfWeekday(c.dayOfWeek);
    if c.day < 7 { NameOfWeekday(c.day); }
    hide WEEKDAYS;
  }

  lemma NameOfWeekday(d: nat)
    requires d < 7
    ensures WeekdayName(d) == WEEKDAYS[d] && |WEEKDAYS[d]| >= 3
  {
  }

  lemma MonthSymbols(c: Clock)
    requires c.month < 12
    ensures Symbol('B', c) == MONTHS[c.month] && Symbol('b', c) == MONTHS[c.month][..3]
  {
    NameOfMonth(c.month);
    hide MONTHS;
  }

  lemma NameOfMonth(m: nat)
    requires m < 12
    ensures MonthName(m) == MONTHS[m] && |MONTHS[m]| >= 3
  {
  }

  const SYMBOLS :=
    {'a', 'A', 'b', 'B', 'c', 'd', 'H', 'I', 'j', 'm', 'M', 'p', 'S', 'U', 'w', 'W', 'x', 'X', 'y', 'Y', 'Z', '%'}

  /** The symbols that write the half of the day or a plain text, and those that are none. */
  lemma PlainSymbols(c: Clock, symbol: char)
    ensures Symbol('p', c) == if c.hour < 12 then "AM" else "PM"
    ensures symbol in {'c', 'x', 'X', 'Z'} ==> Symbol(symbol, c) == ""
    ensures Symbol('%', c) == "%" && Symbol('W', c) == "0"
    ensures symbol !in SYMBOLS ==> Symbol(symbol, c) == ['%', symbol]
  {
    hide WeekdayName, MonthName, Two;
  }

  /** The symbols that write a number: with two digits, or with as many as it takes. */
  lemma NumberSymbols(c: Clock)
    requires InRange(c)
    ensures forall symbol <- {'d', 'H', 'I', 'm', 'M', 'S', 'y'} :: |Symbol(symbol, c)| == 2
    ensures IsNumeral(Symbol('Y', c), 1900 + c.year) && IsNumeral(Symbol('y', c), c.year % 100)
    ensures IsNumeral(Symbol('m', c), c.month + 1) && IsNumeral(Symbol('d', c), c.day)
    ensures IsNumeral(Symbol('H', c), c.hour) && IsNumeral(Symbol('M', c), c.minute) && IsNumeral(Symbol('S', c), c.second)
    ensures IsNumeral(Symbol('I', c), if c.hour == 0 then 12 else if c.hour <= 12 then c.hour else c.hour - 12)
    ensures IsNumeral(Symbol('j', c), c.dayOfYear) && IsNumeral(Symbol('U', c), c.weekOfYear)
  {
    hide IsNumeral, Two, Digits;
    TwoMeans(c.month + 1);
    TwoMeans(c.day);
    TwoMeans(c.hour);
    TwoMeans(c.minute);
    TwoMeans(c.second);
    TwoMeans((1900 + c.year) % 100);
    TwoMeans(if c.hour % 12 == 0 then 12 else c.hour % 12);
    DigitsMean(1900 + c.year);
    DigitsMean(c.dayOfYear);
    DigitsMean(c.weekOfYear);
  }

  lemma FieldsAt(y: string, mo: string, d: string, h: string, mi: string, se: string)
    requires |y| == 4 && |mo| == 2 && |d| == 2 && |h| == 2 && |mi| == 2 && |se| == 2
    ensures var s := y + ("-" + (mo + ("-" + (d + (" " + (h + (":" + (mi + (":" + se)))))))));
            && |s| == 19 && s[..4] == y && s[4] == '-' && s[5..7] == mo && s[7] == '-' && s[8..10] == d && s[10] == ' '
            && s[11..13] == h && s[13] == ':' && s[14..16] == mi && s[16] == ':' && s[17..] == se
  {
    var time := h + (":" + (mi + (":" + se)));
    assert |time| == 8 && time[..2] == h && time[2] == ':' && time[3..5] == mi && time[5] == ':' && time[6..] == se;
    var s := y + ("-" + (mo + ("-" + (d + (" " + time)))));
    assert s[11..] == time && s[10] == ' ';
    assert s[11..13] == time[..2] && s[13] == time[2] && s[14..16] == time[3..5] && s[16] == time[5] && s[17..] == time[6..];
  }

  /** A timestamp is "YYYY-MM-DD HH:MM:SS". */
  lemma StampMeans(c: Clock)
    requires InRange(c)
    ensures var s := Format(STAMP, c);
            && |s| == 19 && s[4] == '-' && s[7] == '-' && s[10] == ' ' && s[13] == ':' && s[16] == ':'
            && IsNumeral(s[..4], 1900 + c.year) && IsNumeral(s[5..7], c.month + 1) && IsNumeral(s[8..10], c.day)
            && IsNumeral(s[11..13], c.hour) && IsNumeral(s[14..16], c.minute) && IsNumeral(s[17..], c.second)
  {
    hide IsNumeral, Two, Digits, Format;
    StampFields(c);
    DigitsMean(1900 + c.year);
    FourDigits(1900 + c.year);
    TwoMeans(c.month + 1);
    TwoMeans(c.day);
    TwoMeans(c.hour);
    TwoMeans(c.minute);
    TwoMeans(c.second);
    FieldsAt(Digits(1900 + c.year), Two(c.month + 1), Two(c.day), Two(c.hour), Two(c.minute), Two(c.second));
  }
}
