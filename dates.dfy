/** The importer's date rewrite (import.c:50-54): glibc's strptime reads the
    bank's "%m/%d/%Y" text and strftime writes it back as "%Y-%m-%d", the
    form every stored transaction date has (canonical when the year has four
    digits). */
module Dates {
  import opened Common

  datatype Date = Date(year: nat, month: nat, day: nat)

  /** What strptime accepts: %m in 1..12, %d in 1..31 (whatever the month), %Y in 0..9999. */
  predicate ValidDate(d: Date)
  {
    d.year <= 9999 && 1 <= d.month <= 12 && 1 <= d.day <= 31
  }

  predicate IsSpace(c: char)
  {
    c == ' ' || c == '\t' || c == '\n' || c == '\r' || c as int == 11 || c as int == 12
  }

  function SkipSpaces(s: string, i: nat): (j: nat)
    requires i <= |s|
    ensures i <= j <= |s|
    ensures forall k :: i <= k < j ==> IsSpace(s[k])
    ensures j < |s| ==> !IsSpace(s[j])
    decreases |s| - i
  {
    if i < |s| && IsSpace(s[i]) then SkipSpaces(s, i + 1) else i
  }

  /** The digit loop of glibc's get_number: it reads another digit while fewer
      than n have been read, the value so far times ten stays within hi, and
      the next character is a digit. Returns the value and the next index. */
  function MoreDigits(s: string, k: nat, v: nat, hi: nat, n: nat): (r: (nat, nat))
    requires k <= |s|
    ensures k <= r.1 <= |s|
    decreases n
  {
    if n > 0 && v * 10 <= hi && k < |s| && IsDigit(s[k])
    then MoreDigits(s, k + 1, v * 10 + DigitValue(s[k]), hi, n - 1)
    else (v, k)
  }

  /** glibc strptime's get_number(lo, hi, n): skip white space, read one to n
      digits and fail unless the value is within lo..hi. */
  function GetNumber(s: string, i: nat, lo: nat, hi: nat, n: nat): (r: Option<(nat, nat)>)
    requires i <= |s| && n >= 1
    ensures r.Some? ==> lo <= r.value.0 <= hi && i < r.value.1 <= |s|
  {
    var j := SkipSpaces(s, i);
    if j == |s| || !IsDigit(s[j]) then None
    else
      var (v, k) := MoreDigits(s, j + 1, DigitValue(s[j]), hi, n - 1);
      if lo <= v <= hi then Some((v, k)) else None
  }

  predicate Lit(s: string, i: nat, c: char)
  {
    i < |s| && s[i] == c
  }

  /** strptime(text, "%m/%d/%Y"): None where strptime returns NULL. */
  function ParseUsDate(s: string): (r: Option<Date>)
    ensures r.Some? ==> ValidDate(r.value)
  {
    match GetNumber(s, 0, 1, 12, 2)
    case None => None
    case Some((m, i)) =>
      if !Lit(s, i, '/') then None
      else match GetNumber(s, i + 1, 1, 31, 2)
        case None => None
        case Some((d, j)) =>
          if !Lit(s, j, '/') then None
          else match GetNumber(s, j + 1, 0, 9999, 4)
            case None => None
            case Some((y, _)) => Some(Date(y, m, d))
  }

  /** strftime(.., "%Y-%m-%d", ..) as glibc writes it: the year as a plain
      decimal number (no padding, so year 24 gives "24-01-05"), month and
      day zero-padded to two digits. */
  function FormatIso(d: Date): string
  {
    Digits(d.year) + ['-'] + Pad(d.month, 2) + ['-'] + Pad(d.day, 2)
  }

  /** The bank's layout of a date, zero-padded. */
  function FormatUs(d: Date): string
  {
    Pad(d.month, 2) + ['/'] + Pad(d.day, 2) + ['/'] + Pad(d.year, 4)
  }

  /** The import's date key: the input date rewritten from MM/DD/YYYY to YYYY-MM-DD. */
  function NormalizeDate(s: string): Option<string>
  {
    match ParseUsDate(s)
    case None => None
    case Some(d) => Some(FormatIso(d))
  }

  /** A date text the importer can store: what strftime writes for a date
      strptime accepts. */
  ghost predicate WrittenDate(s: string)
  {
    exists d :: ValidDate(d) && FormatIso(d) == s
  }

  /** The canonical form "YYYY-MM-DD" with a month in 1..12 and a day in 1..31. */
  predicate IsoDate(s: string)
  {
    && |s| == 10
    && AllDigits(s[..4]) && s[4] == '-' && AllDigits(s[5..7]) && s[7] == '-' && AllDigits(s[8..])
    && 1 <= NumberValue(s[5..7]) <= 12 && 1 <= NumberValue(s[8..]) <= 31
  }

  function ParseIso(s: string): (d: Date)
    requires IsoDate(s)
    ensures ValidDate(d)
  {
    NumberValueBound(s[..4]);
    Date(NumberValue(s[..4]), NumberValue(s[5..7]), NumberValue(s[8..]))
  }

  /** A four-digit year is written in full, so the text has the canonical layout. */
  lemma FormatIsoParts(d: Date)
    requires ValidDate(d) && 1000 <= d.year
    ensures |FormatIso(d)| == 10
    ensures FormatIso(d)[..4] == Pad(d.year, 4)
    ensures FormatIso(d)[4] == '-' && FormatIso(d)[7] == '-'
    ensures FormatIso(d)[5..7] == Pad(d.month, 2)
    ensures FormatIso(d)[8..] == Pad(d.day, 2)
    ensures FormatIso(d)[..7] == Pad(d.year, 4) + ['-'] + Pad(d.month, 2)
  {
    assert Pow10(3) == 1000 && Pow10(4) == 10000 by {
      assert Pow10(1) == 10 && Pow10(2) == 100;
    }
    DigitsIsPad(d.year, 4);
  }

  /** strftime's text is canonical exactly when the year has four digits,
      and then reading it back gives the date. */
  lemma IsoRoundTrip(d: Date)
    requires ValidDate(d)
    ensures IsoDate(FormatIso(d)) <==> 1000 <= d.year
    ensures 1000 <= d.year ==> ParseIso(FormatIso(d)) == d
  {
    if 1000 <= d.year {
      FormatIsoParts(d);
      PadValue(d.year, 4);
      PadValue(d.month, 2);
      PadValue(d.day, 2);
    } else {
      DigitsShort(d.year, 3);
    }
  }

  /** Conversely, a canonical date with a four-digit year is what strftime
      writes for its own parse, and one with a year below 1000 ("0024-01-05")
      is never written at all. */
  lemma IsoUnique(s: string)
    requires IsoDate(s)
    ensures 1000 <= ParseIso(s).year ==> FormatIso(ParseIso(s)) == s
    ensures ParseIso(s).year < 1000 ==> !WrittenDate(s)
  {
    if 1000 <= ParseIso(s).year {
      IsoRewritten(s);
    } else if WrittenDate(s) {
      var e :| ValidDate(e) && FormatIso(e) == s;
      IsoRoundTrip(e);
    }
  }

  lemma IsoRewritten(s: string)
    requires IsoDate(s) && 1000 <= ParseIso(s).year
    ensures FormatIso(ParseIso(s)) == s
  {
    var d := ParseIso(s);
    PadOfValue(s[..4]);
    PadOfValue(s[5..7]);
    PadOfValue(s[8..]);
    FormatIsoParts(d);
    assert s == s[..4] + [s[4]] + s[5..7] + [s[7]] + s[8..];
  }

  /** Different dates are written as different texts, whatever the year's
      width: the importer's date key identifies the date. */
  lemma WrittenDateUnique(d: Date, e: Date)
    requires ValidDate(d) && ValidDate(e) && FormatIso(d) == FormatIso(e)
    ensures d == e
  {
    var s := FormatIso(d);
    var n := |s| - 6;
    assert s[..n] == Digits(d.year);
    assert s[n + 1..n + 3] == Pad(d.month, 2) && s[n + 4..] == Pad(d.day, 2);
    assert |Digits(e.year)| == n;
    assert s[..n] == Digits(e.year);
    assert s[n + 1..n + 3] == Pad(e.month, 2) && s[n + 4..] == Pad(e.day, 2);
    DigitsValue(d.year);
    DigitsValue(e.year);
    PadValue(d.month, 2);
    PadValue(e.month, 2);
    PadValue(d.day, 2);
    PadValue(e.day, 2);
  }

  /** NumberValue read from the front: the first digit weighs 10^(|t|-1). */
  lemma {:induction false} NumberValueFront(t: string)
    requires AllDigits(t) && t != []
    ensures NumberValue(t) == DigitValue(t[0]) * Pow10(|t| - 1) + NumberValue(t[1..])
    decreases |t|
  {
    if |t| > 1 {
      var init, rest := t[..|t| - 1], t[1..];
      NumberValueFront(init);
      assert init[0] == t[0];
      assert init[1..] == rest[..|rest| - 1];
      assert rest[|rest| - 1] == t[|t| - 1];
      FrontStep(NumberValue(t), NumberValue(init), NumberValue(rest), NumberValue(init[1..]),
                DigitValue(t[0]), DigitValue(t[|t| - 1]), Pow10(|t| - 2));
    }
  }

  /** The arithmetic step of NumberValueFront. */
  lemma FrontStep(a: int, b: int, c: int, e: int, d0: int, dl: int, p: int)
    requires a == 10 * b + dl && b == d0 * p + e && c == 10 * e + dl
    ensures a == d0 * (10 * p) + c
  {
  }

  /** MoreDigits reads exactly the n digits t that follow when the value they
      complete stays within hi. */
  lemma {:induction false} MoreDigitsReadsAll(s: string, k: nat, v: nat, hi: nat, t: string)
    requires k + |t| <= |s| && s[k..k + |t|] == t && AllDigits(t)
    requires v * Pow10(|t|) + NumberValue(t) <= hi
    ensures MoreDigits(s, k, v, hi, |t|) == (v * Pow10(|t|) + NumberValue(t), k + |t|)
    decreases |t|
  {
    if t != [] {
      assert s[k] == t[0];
      NumberValueFront(t);
      var p := Pow10(|t| - 1);
      var d := DigitValue(t[0]);
      var v' := v * 10 + d;
      Weights(v, d, p);
      assert s[k + 1..k + 1 + |t[1..]|] == t[1..];
      MoreDigitsReadsAll(s, k + 1, v', hi, t[1..]);
    }
  }

  /** The arithmetic step of MoreDigitsReadsAll. */
  lemma Weights(v: nat, d: nat, p: nat)
    requires p >= 1
    ensures v * 10 <= v * (10 * p)
    ensures (v * 10 + d) * p == v * (10 * p) + d * p
  {
  }

  /** get_number on an exactly n-digit field whose value is within range. */
  lemma GetNumberOfPad(s: string, i: nat, x: nat, lo: nat, hi: nat, n: nat)
    requires n >= 1 && x < Pow10(n) && lo <= x <= hi
    requires i + n <= |s| && s[i..i + n] == Pad(x, n)
    ensures GetNumber(s, i, lo, hi, n) == Some((x, i + n))
  {
    PadValue(x, n);
    GetNumberOfDigits(s, i, Pad(x, n), lo, hi);
  }

  /** get_number on a field of exactly the digits t, within range. */
  lemma GetNumberOfDigits(s: string, i: nat, t: string, lo: nat, hi: nat)
    requires t != [] && AllDigits(t) && lo <= NumberValue(t) <= hi
    requires i + |t| <= |s| && s[i..i + |t|] == t
    ensures GetNumber(s, i, lo, hi, |t|) == Some((NumberValue(t), i + |t|))
  {
    assert s[i] == t[0];
    assert SkipSpaces(s, i) == i;
    DigitsAfterFirst(s, i, t, hi);
  }

  /** After the first digit of t, the digit loop reads the rest of t. */
  lemma DigitsAfterFirst(s: string, i: nat, t: string, hi: nat)
    requires t != [] && AllDigits(t) && NumberValue(t) <= hi
    requires i + |t| <= |s| && s[i..i + |t|] == t
    ensures MoreDigits(s, i + 1, DigitValue(t[0]), hi, |t| - 1) == (NumberValue(t), i + |t|)
  {
    NumberValueFront(t);
    assert s[i + 1..i + 1 + |t[1..]|] == t[1..];
    MoreDigitsReadsAll(s, i + 1, DigitValue(t[0]), hi, t[1..]);
  }

  /** A two-digit year is read as a year of the first century and written
      back unpadded, so the stored key is shorter than the canonical form. */
  lemma TwoDigitYear()
    ensures ParseUsDate("01/05/24") == Some(Date(24, 1, 5))
    ensures NormalizeDate("01/05/24") == Some("24-01-05")
    ensures !IsoDate("24-01-05")
  {
    TwoDigitYearRead();
    TwoDigitYearWritten();
  }

  lemma TwoDigitYearWritten()
    ensures FormatIso(Date(24, 1, 5)) == "24-01-05"
  {
    assert DigitChar(0) == '0' && DigitChar(1) == '1' && DigitChar(2) == '2';
    assert DigitChar(4) == '4' && DigitChar(5) == '5';
    assert Digits(24) == ['2', '4'];
    assert Pad(1, 2) == ['0', '1'] && Pad(5, 2) == ['0', '5'];
    assert "24-01-05" == ['2', '4'] + ['-'] + ['0', '1'] + ['-'] + ['0', '5'];
  }

  lemma TwoDigitYearRead()
    ensures ParseUsDate("01/05/24") == Some(Date(24, 1, 5))
  {
    var s := "01/05/24";
    TwoDigitMonthDay();
    TwoDigitYearField();
    assert Lit(s, 2, '/') && Lit(s, 5, '/');
  }

  lemma TwoDigitMonthDay()
    ensures GetNumber("01/05/24", 0, 1, 12, 2) == Some((1, 2))
    ensures GetNumber("01/05/24", 3, 1, 31, 2) == Some((5, 5))
  {
    var s := "01/05/24";
    assert s[0..2] == "01";
    assert s[3..5] == "05";
    assert NumberValue("01") == 1 && NumberValue("05") == 5 by {
      assert NumberValue("0") == 0;
    }
    GetNumberOfDigits(s, 0, "01", 1, 12);
    GetNumberOfDigits(s, 3, "05", 1, 31);
  }

  /** The year field has room for four digits and the text ends after two. */
  lemma TwoDigitYearField()
    ensures GetNumber("01/05/24", 6, 0, 9999, 4) == Some((24, 8))
  {
    var s := "01/05/24";
    assert s[6] == '2' && s[7] == '4' && |s| == 8;
    assert SkipSpaces(s, 6) == 6;
    assert MoreDigits(s, 8, 24, 9999, 2) == (24, 8);
    assert MoreDigits(s, 7, 2, 9999, 3) == (24, 8);
  }

  /** The rewrite on a zero-padded bank date: MM/DD/YYYY becomes YYYY-MM-DD. */
  lemma NormalizeFormatted(d: Date)
    requires ValidDate(d)
    ensures ParseUsDate(FormatUs(d)) == Some(d)
    ensures NormalizeDate(FormatUs(d)) == Some(FormatIso(d))
  {
    var s := FormatUs(d);
    assert s[0..2] == Pad(d.month, 2);
    assert s[3..5] == Pad(d.day, 2);
    assert s[6..10] == Pad(d.year, 4);
    GetNumberOfPad(s, 0, d.month, 1, 12, 2);
    GetNumberOfPad(s, 3, d.day, 1, 31, 2);
    GetNumberOfPad(s, 6, d.year, 0, 9999, 4);
  }
}
