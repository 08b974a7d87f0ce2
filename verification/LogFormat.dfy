/**
 The log prefix formatter of src/log/log.c: a loop over the format characters that
 writes into a bounded buffer, against the expansion of the whole format.
 */
module LogFormat {
  import opened Seqs

  const NUL: char := '\0'

  /** The broken-down local time that log_get_time_fmt prints. */
  datatype Tm = Tm(year: int, mon: int, mday: int, hour: int, min: int, sec: int)

  /** Everything a format can mention. */
  datatype Record = Record(level: int, filename: string, lineno: int, tm: Tm)

  // ------------------------------------------------------------ printed numbers

  function Digits(n: nat): string {
    if n < 10 then [['0', '1', '2', '3', '4', '5', '6', '7', '8', '9'][n]]
    else Digits(n / 10) + Digits(n % 10)
  }

  /** "%d" */
  function Decimal(n: int): string {
    if n < 0 then "-" + Digits(-n) else Digits(n)
  }

  function Zeros(k: int): string
    decreases k
  {
    if k <= 0 then "" else "0" + Zeros(k - 1)
  }

  /** "%0wd": zeros go between the sign and the digits. */
  function Padded(n: int, w: nat): string {
    if n < 0 then "-" + Zeros(w - 1 - |Digits(-n)|) + Digits(-n)
    else Zeros(w - |Digits(n)|) + Digits(n)
  }

  function LevelToString(level: int): Option<string> {
    match level
    case 0 => Some("TRACE")
    case 1 => Some("DEBUG")
    case 2 => Some("INFO")
    case 3 => Some("WARNING")
    case 4 => Some("ERROR")
    case 5 => Some("FATAL")
    case _ => None
  }

  predicate IsTimeLetter(c: char) {
    c in "YmdFHMST"
  }

  function TimeText(c: char, tm: Tm): string {
    match c
    case 'Y' => Padded(1900 + tm.year, 4)
    case 'm' => Padded(tm.mon + 1, 2)
    case 'd' => Padded(tm.mday, 2)
    case 'F' => Padded(1900 + tm.year, 4) + "-" + Padded(tm.mon + 1, 2) + "-" + Padded(tm.mday, 2)
    case 'H' => Padded(tm.hour, 2)
    case 'M' => Padded(tm.min, 2)
    case 'S' => Padded(tm.sec, 2)
    case 'T' => Padded(tm.hour, 2) + ":" + Padded(tm.min, 2) + ":" + Padded(tm.sec, 2)
    case _ => ""
  }

  // --------------------------------------------------------------- the expansion

  /** log_log formats only for the six real levels. */
  predicate ValidRecord(r: Record) {
    LevelToString(r.level).Some? && NUL !in r.filename
  }

  /** What `%c` stands for; an unknown letter stands for itself. */
  function Directive(c: char, r: Record): string
    requires ValidRecord(r)
  {
    if c == '%' then "%"
    else if IsTimeLetter(c) then TimeText(c, r.tm)
    else if c == 'f' then r.filename
    else if c == 'l' then Decimal(r.lineno)
    else if c == 'L' then LevelToString(r.level).value
    else [c]
  }

  /** The full expansion of a format; a lone `%` at the end prints nothing. */
  function Expand(fmt: string, r: Record): string
    requires ValidRecord(r)
  {
    if fmt == [] then []
    else if fmt[0] != '%' then [fmt[0]] + Expand(fmt[1..], r)
    else if |fmt| == 1 then []
    else Directive(fmt[1], r) + Expand(fmt[2..], r)
  }

  /** What is still to come when the loop stands before fmt with or without a pending `%`. */
  function Pending(pct: bool, fmt: string, r: Record): string
    requires ValidRecord(r)
  {
    Expand((if pct then "%" else "") + fmt, r)
  }

  /** What the loop appends for the character c. */
  function Emitted(pct: bool, c: char, r: Record): string
    requires ValidRecord(r)
  {
    if pct then Directive(c, r) else if c == '%' then "" else [c]
  }

  lemma PendingStep(pct: bool, fmt: string, r: Record)
    requires ValidRecord(r) && fmt != []
    ensures Pending(pct, fmt, r)
            == Emitted(pct, fmt[0], r) + Pending(!pct && fmt[0] == '%', fmt[1..], r)
  {
    assert "" + fmt[1..] == fmt[1..];
    if pct {
      var f := "%" + fmt;
      assert f[0] == '%' && f[1] == fmt[0] && f[2..] == fmt[1..];
    } else {
      assert "" + fmt == fmt;
      if fmt[0] == '%' {
        assert "%" + fmt[1..] == fmt;
      }
    }
  }

  ghost predicate Consumed(all: string, done: string, pct: bool, fmt: string, p: nat, r: Record)
    requires ValidRecord(r) && p <= |fmt|
  {
    all == done + Pending(pct, fmt[p..], r)
  }

  lemma ConsumedMore(all: string, done: string, pct: bool, fmt: string, p: nat, r: Record)
    requires ValidRecord(r) && p < |fmt| && Consumed(all, done, pct, fmt, p, r)
    ensures Consumed(all, done + Emitted(pct, fmt[p], r), !pct && fmt[p] == '%', fmt, p + 1, r)
  {
    PendingStep(pct, fmt[p..], r);
    assert fmt[p..][1..] == fmt[p + 1..] && fmt[p..][0] == fmt[p];
  }

  // ------------------------------------------------------------------- the code

  /** snprintf(str + at, cap, "%s", text): as much as fits, then NUL; the full length is returned. */
  method Snprintf(str: array<char>, at: nat, cap: nat, text: string) returns (n: nat)
    requires 0 < cap && at + cap <= str.Length
    modifies str
    ensures n == |text|
    ensures var m := Min(|text|, cap - 1);
            && str[at..at + m] == text[..m] && str[at + m] == NUL
            && (forall i :: 0 <= i < str.Length && !(at <= i <= at + m) ==> str[i] == old(str[i]))
  {
    var m := if |text| < cap - 1 then |text| else cap - 1;
    var i := 0;
    while i < m
      invariant i <= m
      invariant forall j :: 0 <= j < i ==> str[at + j] == text[j]
      invariant forall j :: 0 <= j < str.Length && !(at <= j < at + i) ==> str[j] == old(str[j])
    {
      str[at + i] := text[i];
      i := i + 1;
    }
    str[at + m] := NUL;
    n := |text|;
  }

  /** log_get_time_fmt: the cursor advance never exceeds cap - 1. */
  method LogGetTimeFmt(format: char, str: array<char>, at: nat, cap: nat, tm: Tm) returns (n: nat)
    requires 0 < cap && at + cap <= str.Length
    modifies str
    ensures var text := TimeText(format, tm);
            && n == Min(|text|, cap - 1)
            && str[at..at + n] == text[..n]
    ensures forall i :: 0 <= i < str.Length && !(at <= i < at + cap) ==> str[i] == old(str[i])
    ensures forall i :: 0 <= i < at ==> str[i] == old(str[i])
  {
    var ret := 0;
    if IsTimeLetter(format) {
      ret := Snprintf(str, at, cap, TimeText(format, tm));
    }
    n := if ret < cap - 1 then ret else cap - 1;
  }

  /** The buffer holds the first characters of done, as many as fit before the last cell; i may have run past them. */
  ghost predicate Written(buf: seq<char>, len: nat, i: nat, done: string)
    requires 1 <= len <= |buf|
  {
    && (i < len - 1 ==> i == |done|)
    && (i >= len - 1 ==> |done| >= len - 1)
    && buf[..Min(|done|, len - 1)] == done[..Min(|done|, len - 1)]
  }

  lemma WrittenMore(before: seq<char>, buf: seq<char>, len: nat, i: nat, done: string, text: string, i': nat)
    requires 1 <= len <= |before| && i < len - 1 && Written(before, len, i, done)
    requires Put(before, buf, len, i, text, i')
    ensures Written(buf, len, i', done + text)
  {
    var m := Min(|text|, len - i - 1);
    var all := done + text;
    forall k | 0 <= k < Min(|all|, len - 1) ensures buf[k] == all[k] {
      if k >= i {
        assert buf[k] == buf[i..i + m][k - i] == text[k - i];
      } else {
        assert buf[k] == before[..Min(|done|, len - 1)][k] == done[k];
      }
    }
  }

  /** buf is before with text put at i, cut off before the last of the first len cells; i' may lie past the cut. */
  ghost predicate Put(before: seq<char>, buf: seq<char>, len: nat, i: nat, text: string, i': nat)
    requires i < len <= |before|
  {
    && |buf| == |before|
    && (forall k :: 0 <= k < |buf| && !(i <= k < len) ==> buf[k] == before[k])
    && var m := Min(|text|, len - i - 1);
       buf[i..i + m] == text[..m] && (i' == i + m || i' == i + |text|)
  }

  /** The switch of log_fmt_tostring: the character after a `%`. */
  method PutDirective(c: char, r: Record, str: array<char>, i: nat, len: nat) returns (i': nat, prev: char)
    requires ValidRecord(r) && i < len - 1 && len <= str.Length
    modifies str
    ensures Put(old(str[..]), str[..], len, i, Directive(c, r), i') && prev != '%'
  {
    prev := NUL;
    if c == '%' {
      str[i] := '%';
      i' := i + 1;
    } else if IsTimeLetter(c) {
      var n := LogGetTimeFmt(c, str, i, len - i, r.tm);
      i' := i + n;
    } else if c == 'f' {
      var n := Snprintf(str, i, len - i, r.filename);
      i' := i + n;
    } else if c == 'l' {
      var n := Snprintf(str, i, len - i, Decimal(r.lineno));
      i' := i + n;
    } else if c == 'L' {
      var n := Snprintf(str, i, len - i, LevelToString(r.level).value);
      i' := i + n;
    } else {
      str[i] := c;
      i' := i + 1;
      prev := c;
    }
  }

  /** The body of the loop for one format character c. */
  method PutChar(prev: char, c: char, r: Record, str: array<char>, i: nat, len: nat)
    returns (i': nat, prev': char)
    requires ValidRecord(r) && i < len - 1 && len <= str.Length
    modifies str
    ensures Put(old(str[..]), str[..], len, i, Emitted(prev == '%', c, r), i')
    ensures prev' == '%' <==> prev != '%' && c == '%'
  {
    if prev != '%' && c != '%' {
      str[i] := c;
      return i + 1, c;
    } else if prev != '%' && c == '%' {
      return i, c;
    }
    i', prev' := PutDirective(c, r, str, i, len);
  }

  /** The loop has consumed fmt[..p] into done, of which the buffer holds what fits. */
  ghost predicate InStep(all: string, done: string, pct: bool, fmt: string, p: nat, r: Record, buf: seq<char>,
                         len: nat, i: nat)
    requires ValidRecord(r) && p <= |fmt| && 1 <= len <= |buf|
  {
    Consumed(all, done, pct, fmt, p, r) && Written(buf, len, i, done)
  }

  lemma TurnKeeps(all: string, done: string, pct: bool, fmt: string, p: nat, r: Record, before: seq<char>,
                  buf: seq<char>, len: nat, i: nat, i': nat)
    requires ValidRecord(r) && p < |fmt| && 1 <= len <= |before| && i < len - 1
    requires InStep(all, done, pct, fmt, p, r, before, len, i)
    requires Put(before, buf, len, i, Emitted(pct, fmt[p], r), i')
    ensures InStep(all, done + Emitted(pct, fmt[p], r), !pct && fmt[p] == '%', fmt, p + 1, r, buf, len, i')
  {
    ConsumedMore(all, done, pct, fmt, p, r);
    WrittenMore(before, buf, len, i, done, Emitted(pct, fmt[p], r), i');
  }

  /**
   log_fmt_tostring writes only inside the first len cells and leaves there the
   first len - 1 characters of the expansion, or all of it if shorter, and NUL.
   */
  method LogFmtToString(r: Record, fmt: string, str: array<char>, len: nat)
    requires ValidRecord(r) && 1 <= len <= str.Length
    modifies str
    ensures var all := Expand(fmt, r);
            var k := Min(|all|, len - 1);
            str[..k] == all[..k] && str[k] == NUL
    ensures forall j :: len <= j < str.Length ==> str[j] == old(str[j])
  {
    var i;
    ghost var done;
    i, done := FormatChars(r, fmt, str, len);
    i := if i < len then i else len - 1;
    FinalCut(Expand(fmt, r), done, str[..], len, i);
    str[i] := NUL;
  }

  /** Its loop: the cursor may end up past the cells, and done is what has been expanded until then. */
  method FormatChars(r: Record, fmt: string, str: array<char>, len: nat) returns (i: nat, ghost done: string)
    requires ValidRecord(r) && 1 <= len <= str.Length
    modifies str
    ensures Written(str[..], len, i, done) && done <= Expand(fmt, r)
    ensures i < len - 1 ==> done == Expand(fmt, r)
    ensures forall j :: len <= j < str.Length ==> str[j] == old(str[j])
  {
    var p: nat, prev: char := 0, NUL;
    ghost var all := Expand(fmt, r);
    i, done := 0, "";
    assert fmt[0..] == fmt && "" + fmt == fmt;
    while i < len - 1 && p < |fmt|
      invariant p <= |fmt|
      invariant InStep(all, done, prev == '%', fmt, p, r, str[..], len, i)
      invariant forall j :: len <= j < str.Length ==> str[j] == old(str[j])
      decreases |fmt| - p
    {
      i, prev, done := FormatNext(all, done, prev, fmt, p, r, str, i, len);
      p := p + 1;
    }
    AllConsumed(all, done, prev == '%', fmt, p, r);
  }

  /** The body of that loop, with what it adds to done. */
  method FormatNext(ghost all: string, ghost done: string, prev: char, fmt: string, p: nat, r: Record,
                    str: array<char>, i: nat, len: nat) returns (i': nat, prev': char, ghost done': string)
    requires ValidRecord(r) && p < |fmt| && i < len - 1 && len <= str.Length
    requires InStep(all, done, prev == '%', fmt, p, r, str[..], len, i)
    modifies str
    ensures InStep(all, done', prev' == '%', fmt, p + 1, r, str[..], len, i')
    ensures forall j :: len <= j < str.Length ==> str[j] == old(str[j])
  {
    ghost var before := str[..];
    i', prev' := PutChar(prev, fmt[p], r, str, i, len);
    TurnKeeps(all, done, prev == '%', fmt, p, r, before, str[..], len, i, i');
    done' := done + Emitted(prev == '%', fmt[p], r);
  }

  lemma AllConsumed(all: string, done: string, pct: bool, fmt: string, p: nat, r: Record)
    requires ValidRecord(r) && p <= |fmt| && Consumed(all, done, pct, fmt, p, r)
    ensures done <= all && (p == |fmt| ==> done == all)
  {
    if p == |fmt| {
      NothingPending(pct, fmt, r);
    }
  }

  lemma NothingPending(pct: bool, fmt: string, r: Record)
    requires ValidRecord(r)
    ensures Pending(pct, fmt[|fmt|..], r) == []
  {
  }

  /** Cut off at i, the buffer holds the beginning of the expansion. */
  lemma FinalCut(all: string, done: string, buf: seq<char>, len: nat, i: nat)
    requires 1 <= len <= |buf| && done <= all && i < len
    requires buf[..Min(|done|, len - 1)] == done[..Min(|done|, len - 1)]
    requires if i < len - 1 then i == |done| && all == done else |done| >= len - 1
    ensures i == Min(|all|, len - 1) && buf[..i] == all[..i]
  {
  }

  // ------------------------------------------------------- laws of the expansion

  lemma ExpandPercent(rest: string, r: Record)
    requires ValidRecord(r)
    ensures Expand("%%" + rest, r) == ['%'] + Expand(rest, r)
  {
    var f := "%%" + rest;
    assert f[0] == '%' && f[1] == '%' && f[2..] == rest;
    assert Directive('%', r) == ['%'];
  }

  /** The format that prints s as it is. */
  function Escape(s: string): string {
    if s == [] then [] else (if s[0] == '%' then "%%" else [s[0]]) + Escape(s[1..])
  }

  lemma {:induction false} EscapeRoundTrip(s: string, r: Record)
    requires ValidRecord(r)
    ensures Expand(Escape(s), r) == s
  {
    if s != [] {
      var rest := Escape(s[1..]);
      EscapeRoundTrip(s[1..], r);
      if s[0] == '%' {
        ExpandPercent(rest, r);
      } else {
        assert ([s[0]] + rest)[1..] == rest;
      }
      assert s == [s[0]] + s[1..];
    }
  }

  /** No directive of the format is cut off at its end. */
  predicate Complete(fmt: string) {
    if fmt == [] then true
    else if fmt[0] != '%' then Complete(fmt[1..])
    else |fmt| > 1 && Complete(fmt[2..])
  }

  lemma ExpandStep(first: string, rest: string, r: Record)
    requires ValidRecord(r)
    requires (|first| == 1 && first[0] != '%') || (|first| == 2 && first[0] == '%')
    ensures Expand(first + rest, r) == (if |first| == 1 then first else Directive(first[1], r)) + Expand(rest, r)
  {
    var f := first + rest;
    assert f[0] == first[0] && f[|first|..] == rest;
  }

  lemma Reassociate(a: string, b: string, c: string)
    ensures (a + b) + c == a + (b + c)
  {
  }

  /** Formats compose: a complete format followed by another expands piecewise. */
  lemma {:induction false} ExpandConcat(a: string, b: string, r: Record)
    requires ValidRecord(r) && Complete(a)
    ensures Expand(a + b, r) == Expand(a, r) + Expand(b, r)
  {
    if a == [] {
      assert a + b == b;
    } else {
      var k := if a[0] == '%' then 2 else 1;
      var first, rest := a[..k], a[k..];
      ExpandConcat(rest, b, r);
      ExpandStep(first, rest, r);
      ExpandStep(first, rest + b, r);
      assert a == first + rest;
      Reassociate(first, rest, b);
      Reassociate(if k == 1 then first else Directive(first[1], r), Expand(rest, r), Expand(b, r));
    }
  }

  function DigitValue(c: char): int {
    match c
    case '0' => 0 case '1' => 1 case '2' => 2 case '3' => 3 case '4' => 4
    case '5' => 5 case '6' => 6 case '7' => 7 case '8' => 8 case '9' => 9
    case _ => 0
  }

  /** The number a string of digits denotes. */
  function Value(s: string): int {
    if s == [] then 0 else 10 * Value(s[..|s| - 1]) + DigitValue(s[|s| - 1])
  }

  lemma {:induction false} DigitsRoundTrip(n: nat)
    ensures Value(Digits(n)) == n && |Digits(n)| > 0
  {
    var last := Digits(n % 10);
    assert last[..0] == [] && Value(last) == n % 10;
    if n >= 10 {
      DigitsRoundTrip(n / 10);
      assert Digits(n)[..|Digits(n)| - 1] == Digits(n / 10);
    }
  }

  lemma {:induction false} ZerosValue(k: int, s: string)
    ensures Value(Zeros(k) + s) == Value(s) && |Zeros(k)| == (if k < 0 then 0 else k)
    decreases |s|, k
  {
    if s == [] {
      assert Zeros(k) + s == Zeros(k);
      if k > 0 {
        ZerosValue(k - 1, []);
        assert Zeros(k - 1) + [] == Zeros(k - 1);
        ZerosSnoc(k - 1);
      }
    } else {
      ZerosValue(k, s[..|s| - 1]);
      assert (Zeros(k) + s)[..|Zeros(k) + s| - 1] == Zeros(k) + s[..|s| - 1];
    }
  }

  lemma {:induction false} ZerosSnoc(k: int)
    requires k >= 0
    ensures |Zeros(k)| == k && |Zeros(k + 1)| == k + 1
    ensures Zeros(k + 1) == Zeros(k) + "0" && Zeros(k + 1)[..k] == Zeros(k)
    decreases k
  {
    if k > 0 {
      ZerosSnoc(k - 1);
    }
  }

  // ------------------------------------------------------- what the fields print

  predicate IsDigit(c: char) {
    '0' <= c <= '9'
  }

  predicate AllDigits(s: string) {
    forall i :: 0 <= i < |s| ==> IsDigit(s[i])
  }

  /** s is the decimal numeral of n in w digits. */
  predicate Numeral(s: string, n: int, w: nat) {
    |s| == w && AllDigits(s) && Value(s) == n
  }

  lemma {:induction false} DigitsShape(n: nat)
    ensures AllDigits(Digits(n)) && |Digits(n)| > 0 && (n > 0 ==> Digits(n)[0] != '0')
  {
    if n >= 10 {
      DigitsShape(n / 10);
      DigitsShape(n % 10);
    }
  }

  lemma {:induction false} DigitsWidth(n: nat)
    ensures n < 100 ==> |Digits(n)| <= 2
    ensures n < 1000 ==> |Digits(n)| <= 3
    ensures n < 10000 ==> |Digits(n)| <= 4
  {
    if n >= 10 {
      DigitsWidth(n / 10);
    }
  }

  lemma {:induction false} ZerosDigits(k: int)
    ensures AllDigits(Zeros(k))
    decreases k
  {
    if k > 0 {
      ZerosDigits(k - 1);
    }
  }

  lemma PaddedNumeral(n: nat, w: nat)
    requires (w == 2 && n < 100) || (w == 4 && n < 10000)
    ensures Numeral(Padded(n, w), n, w)
  {
    DigitsRoundTrip(n);
    DigitsShape(n);
    DigitsWidth(n);
    ZerosFill(Digits(n), w, n);
  }

  /** Zeros in front of a numeral fill it up to w digits. */
  lemma ZerosFill(d: string, w: nat, n: int)
    requires AllDigits(d) && |d| <= w && Value(d) == n
    ensures Numeral(Zeros(w - |d|) + d, n, w)
  {
    ZerosDigits(w - |d|);
    ZerosValue(w - |d|, d);
  }

  /** What localtime gives for the years 0 to 9999; a minute may have 61 seconds. */
  predicate ValidTime(tm: Tm) {
    && 0 <= 1900 + tm.year <= 9999 && 0 <= tm.mon <= 11 && 1 <= tm.mday <= 31
    && 0 <= tm.hour <= 23 && 0 <= tm.min <= 59 && 0 <= tm.sec <= 60
  }

  /** Each time directive prints its number in exactly as many digits as it should. */
  lemma FieldsPrinted(r: Record)
    requires ValidRecord(r) && ValidTime(r.tm)
    ensures Numeral(Expand("%Y", r), 1900 + r.tm.year, 4)
    ensures Numeral(Expand("%m", r), r.tm.mon + 1, 2)
    ensures Numeral(Expand("%d", r), r.tm.mday, 2)
    ensures Numeral(Expand("%H", r), r.tm.hour, 2)
    ensures Numeral(Expand("%M", r), r.tm.min, 2)
    ensures Numeral(Expand("%S", r), r.tm.sec, 2)
  {
    DatePrinted(r);
    ClockPrinted(r);
  }

  lemma DatePrinted(r: Record)
    requires ValidRecord(r) && ValidTime(r.tm)
    ensures Numeral(Expand("%Y", r), 1900 + r.tm.year, 4)
    ensures Numeral(Expand("%m", r), r.tm.mon + 1, 2)
    ensures Numeral(Expand("%d", r), r.tm.mday, 2)
  {
    ExpandOne("%Y", r);
    PaddedNumeral(1900 + r.tm.year, 4);
    ExpandOne("%m", r);
    PaddedNumeral(r.tm.mon + 1, 2);
    ExpandOne("%d", r);
    PaddedNumeral(r.tm.mday, 2);
  }

  lemma ClockPrinted(r: Record)
    requires ValidRecord(r) && ValidTime(r.tm)
    ensures Numeral(Expand("%H", r), r.tm.hour, 2)
    ensures Numeral(Expand("%M", r), r.tm.min, 2)
    ensures Numeral(Expand("%S", r), r.tm.sec, 2)
  {
    ExpandOne("%H", r);
    PaddedNumeral(r.tm.hour, 2);
    ExpandOne("%M", r);
    PaddedNumeral(r.tm.min, 2);
    ExpandOne("%S", r);
    PaddedNumeral(r.tm.sec, 2);
  }

  /** %F is year, month and day with dashes between, %T hour, minute and second with colons between. */
  lemma DateAndTimePrinted(r: Record)
    requires ValidRecord(r) && ValidTime(r.tm)
    ensures var s := Expand("%F", r);
            && |s| == 10 && s[4] == s[7] == '-' && Numeral(s[..4], 1900 + r.tm.year, 4)
            && Numeral(s[5..7], r.tm.mon + 1, 2) && Numeral(s[8..], r.tm.mday, 2)
    ensures var s := Expand("%T", r);
            && |s| == 8 && s[2] == s[5] == ':' && Numeral(s[..2], r.tm.hour, 2)
            && Numeral(s[3..5], r.tm.min, 2) && Numeral(s[6..], r.tm.sec, 2)
  {
    CompositeParts(r);
    FieldsPrinted(r);
    ThreeFields(Expand("%Y", r), '-', Expand("%m", r), '-', Expand("%d", r), 4);
    ThreeFields(Expand("%H", r), ':', Expand("%M", r), ':', Expand("%S", r), 2);
  }

  lemma CompositeParts(r: Record)
    requires ValidRecord(r)
    ensures Expand("%F", r) == Expand("%Y", r) + ['-'] + Expand("%m", r) + ['-'] + Expand("%d", r)
    ensures Expand("%T", r) == Expand("%H", r) + [':'] + Expand("%M", r) + [':'] + Expand("%S", r)
  {
    ExpandOne("%F", r);
    ExpandOne("%T", r);
    ExpandOne("%Y", r);
    ExpandOne("%m", r);
    ExpandOne("%d", r);
    ExpandOne("%H", r);
    ExpandOne("%M", r);
    ExpandOne("%S", r);
    DateAndTime(r.tm);
  }

  lemma ThreeFields(a: string, x: char, b: string, y: char, c: string, w: nat)
    requires |a| == w && |b| == 2 && |c| == 2
    ensures var s := a + [x] + b + [y] + c;
            && |s| == w + 6 && s[..w] == a && s[w] == x && s[w + 1..w + 3] == b && s[w + 3] == y && s[w + 4..] == c
  {
  }

  /** The number a signed decimal numeral denotes. */
  function SignedValue(s: string): int {
    if s != [] && s[0] == '-' then -Value(s[1..]) else Value(s)
  }

  /** s is the shortest signed decimal numeral of n. */
  predicate SignedNumeral(s: string, n: int) {
    && SignedValue(s) == n && s != []
    && (if n < 0 then s[0] == '-' && |s| > 1 && AllDigits(s[1..]) && s[1] != '0'
        else AllDigits(s) && (n > 0 ==> s[0] != '0') && (n == 0 ==> s == "0"))
  }

  lemma DecimalNumeral(n: int)
    ensures SignedNumeral(Decimal(n), n)
  {
    var d := Digits(if n < 0 then -n else n);
    DigitsRoundTrip(if n < 0 then -n else n);
    DigitsShape(if n < 0 then -n else n);
    if n < 0 {
      assert ("-" + d)[1..] == d;
    }
  }

  /** %l prints the line number: it reads back, sign included, and has no superfluous digit. */
  lemma LinePrinted(r: Record)
    requires ValidRecord(r)
    ensures SignedNumeral(Expand("%l", r), r.lineno)
  {
    ExpandLetter('l', r);
    DecimalNumeral(r.lineno);
  }

  /** A directive alone. */
  lemma ExpandLetter(c: char, r: Record)
    requires ValidRecord(r)
    ensures Expand(['%', c], r) == Directive(c, r)
  {
    var f := ['%', c];
    assert f[2..] == [];
  }

  /** %L prints the name of the level. */
  lemma LevelPrinted(r: Record)
    requires ValidRecord(r)
    ensures 0 <= r.level <= 5
    ensures Expand("%L", r) == ["TRACE", "DEBUG", "INFO", "WARNING", "ERROR", "FATAL"][r.level]
  {
    ExpandLetter('L', r);
  }

  /** The rest of the format language: the file, a percent sign, unknown letters, plain characters, a lone percent sign. */
  lemma OthersPrinted(c: char, r: Record)
    requires ValidRecord(r)
    ensures Expand("%f", r) == r.filename
    ensures c !in "YmdFHMSTflL" ==> Expand(['%', c], r) == [c]
    ensures c != '%' ==> Expand([c], r) == [c]
    ensures Expand("%", r) == ""
  {
    ExpandLetter('f', r);
    ExpandLetter(c, r);
    assert [c][1..] == [];
  }

  /**
   "%0wd" prints every number: it reads back, sign included, and is as wide as asked or,
   if that is not enough, as wide as without padding.
   */
  lemma PaddedRoundTrip(n: int, w: nat)
    ensures var s, d := Padded(n, w), Decimal(n);
            && SignedValue(s) == n && |s| == (if |d| < w then w else |d|)
            && (if n < 0 then s[0] == '-' && AllDigits(s[1..]) else AllDigits(s))
  {
    var d := Digits(if n < 0 then -n else n);
    DigitsRoundTrip(if n < 0 then -n else n);
    DigitsShape(if n < 0 then -n else n);
    var k := if n < 0 then w - 1 - |d| else w - |d|;
    ZerosDigits(k);
    ZerosValue(k, d);
    SignedZeros(k, d, n);
  }

  lemma SignedZeros(k: int, d: string, n: int)
    requires AllDigits(d) && AllDigits(Zeros(k)) && d != [] && Value(Zeros(k) + d) == if n < 0 then -n else n
    ensures var s := (if n < 0 then "-" else "") + (Zeros(k) + d);
            && SignedValue(s) == n && (if n < 0 then s[0] == '-' && AllDigits(s[1..]) else AllDigits(s))
    ensures "-" + Zeros(k) + d == "-" + (Zeros(k) + d) && "" + (Zeros(k) + d) == Zeros(k) + d
  {
    assert ("-" + (Zeros(k) + d))[1..] == Zeros(k) + d;
  }

  /** %F is %Y-%m-%d and %T is %H:%M:%S. */
  lemma CompositeDirectives(r: Record)
    requires ValidRecord(r)
    ensures Expand("%F", r) == Expand("%Y-%m-%d", r)
    ensures Expand("%T", r) == Expand("%H:%M:%S", r)
  {
    ExpandOne("%F", r);
    ExpandOne("%T", r);
    ExpandThree("%Y-%m-%d", r);
    ExpandThree("%H:%M:%S", r);
    DateAndTime(r.tm);
  }

  lemma DateAndTime(tm: Tm)
    ensures TimeText('F', tm) == TimeText('Y', tm) + ['-'] + TimeText('m', tm) + ['-'] + TimeText('d', tm)
    ensures TimeText('T', tm) == TimeText('H', tm) + [':'] + TimeText('M', tm) + [':'] + TimeText('S', tm)
  {
  }

  lemma ExpandOne(f: string, r: Record)
    requires ValidRecord(r) && |f| == 2 && f[0] == '%' && IsTimeLetter(f[1])
    ensures Expand(f, r) == TimeText(f[1], r.tm)
  {
    assert f[2..] == [];
  }

  /** A time directive, then a separator. */
  lemma ExpandField(f: string, r: Record)
    requires ValidRecord(r) && |f| > 3 && f[0] == '%' && IsTimeLetter(f[1]) && f[2] != '%'
    ensures Expand(f, r) == TimeText(f[1], r.tm) + [f[2]] + Expand(f[3..], r)
  {
    assert f[2..][1..] == f[3..];
    assert Expand(f[2..], r) == [f[2]] + Expand(f[3..], r);
  }

  lemma ExpandThree(f: string, r: Record)
    requires ValidRecord(r) && |f| == 8 && f[0] == f[3] == f[6] == '%' && f[2] != '%' && f[5] != '%'
    requires IsTimeLetter(f[1]) && IsTimeLetter(f[4]) && IsTimeLetter(f[7])
    ensures Expand(f, r)
            == TimeText(f[1], r.tm) + [f[2]] + TimeText(f[4], r.tm) + [f[5]] + TimeText(f[7], r.tm)
  {
    ExpandField(f, r);
    ExpandField(f[3..], r);
    assert f[3..][3..] == f[6..];
    ExpandOne(f[6..], r);
    JoinFields(TimeText(f[1], r.tm) + [f[2]], TimeText(f[4], r.tm), [f[5]], TimeText(f[7], r.tm));
  }

  lemma JoinFields(a: string, b: string, c: string, d: string)
    ensures a + (b + c + d) == a + b + c + d
  {
  }

  lemma {:induction false} DigitsNoNul(n: nat)
    ensures NUL !in Digits(n) && |Digits(n)| > 0
  {
    if n >= 10 {
      DigitsNoNul(n / 10);
      DigitsNoNul(n % 10);
    }
  }

  lemma {:induction false} ZerosNoNul(k: int)
    ensures NUL !in Zeros(k)
    decreases k
  {
    if k > 0 {
      ZerosNoNul(k - 1);
    }
  }

  lemma PaddedNoNul(n: int, w: nat)
    ensures NUL !in Padded(n, w)
  {
    DigitsNoNul(if n < 0 then -n else n);
    ZerosNoNul(w - 1 - |Digits(if n < 0 then -n else n)|);
    ZerosNoNul(w - |Digits(if n < 0 then -n else n)|);
  }

  lemma TimeTextNoNul(c: char, tm: Tm)
    ensures NUL !in TimeText(c, tm)
  {
    match c
    case 'Y' => PaddedNoNul(1900 + tm.year, 4);
    case 'm' => PaddedNoNul(tm.mon + 1, 2);
    case 'd' => PaddedNoNul(tm.mday, 2);
    case 'F' =>
      PaddedNoNul(1900 + tm.year, 4);
      PaddedNoNul(tm.mon + 1, 2);
      PaddedNoNul(tm.mday, 2);
    case 'H' => PaddedNoNul(tm.hour, 2);
    case 'M' => PaddedNoNul(tm.min, 2);
    case 'S' => PaddedNoNul(tm.sec, 2);
    case 'T' =>
      PaddedNoNul(tm.hour, 2);
      PaddedNoNul(tm.min, 2);
      PaddedNoNul(tm.sec, 2);
    case _ =>
  }

  lemma DirectiveNoNul(c: char, r: Record)
    requires ValidRecord(r) && c != NUL
    ensures NUL !in Directive(c, r)
  {
    TimeTextNoNul(c, r.tm);
    DigitsNoNul(if r.lineno < 0 then -r.lineno else r.lineno);
  }

  /** The expansion of a C string is one: so the NUL the formatter writes is the only one up to there. */
  lemma {:induction false} ExpandNoNul(fmt: string, r: Record)
    requires ValidRecord(r) && NUL !in fmt
    ensures NUL !in Expand(fmt, r)
  {
    if fmt != [] {
      if fmt[0] != '%' {
        ExpandNoNul(fmt[1..], r);
      } else if |fmt| > 1 {
        DirectiveNoNul(fmt[1], r);
        ExpandNoNul(fmt[2..], r);
      }
    }
  }
}
