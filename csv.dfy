/** Reading the bank's export (import.c:45-57): fgets cuts the file into
    buffer-sized lines, sscanf picks the quoted date, charge and description
    fields out of each line, and the charge text is read as a number. */
module Csv {
  import opened Common
  import opened Dates

  /** fgets fills a 256-byte buffer: at most 255 characters per line. */
  const LineCapacity: nat := 255

  /** Length of s up to and including its first newline (all of s if it has none). */
  function NewlineEnd(s: string): (n: nat)
    ensures n <= |s|
    ensures s != [] ==> n >= 1
    ensures forall i :: 0 <= i < n - 1 ==> s[i] != '\n'
    ensures n < |s| ==> s[n - 1] == '\n'
  {
    if s == [] then 0 else if s[0] == '\n' then 1 else 1 + NewlineEnd(s[1..])
  }

  /** What one fgets call returns: through the first newline, at most 255 characters. */
  function ChunkLength(s: string): (n: nat)
    requires s != []
    ensures 1 <= n <= |s| && n <= LineCapacity
  {
    var e := NewlineEnd(s);
    if e <= LineCapacity then e else LineCapacity
  }

  /** A newline can only be the last character of what fgets returns. */
  predicate FgetsShape(line: string)
  {
    1 <= |line| <= LineCapacity && forall i :: 0 <= i < |line| - 1 ==> line[i] != '\n'
  }

  /** The successive results of `while (fgets(line, 256, file))` over the file's text. */
  function ReadLines(text: string): (ls: seq<string>)
    ensures forall i :: 0 <= i < |ls| ==> FgetsShape(ls[i])
    decreases |text|
  {
    if text == [] then [] else
      var n := ChunkLength(text);
      [text[..n]] + ReadLines(text[n..])
  }

  function Flatten(ls: seq<string>): string
  {
    if ls == [] then [] else ls[0] + Flatten(ls[1..])
  }

  /** The lines fgets returns are the file's text, cut and nothing lost. */
  lemma {:induction false} ReadLinesCover(text: string)
    ensures Flatten(ReadLines(text)) == text
    decreases |text|
  {
    if text != [] {
      var n := ChunkLength(text);
      var ls := ReadLines(text);
      assert ls == [text[..n]] + ReadLines(text[n..]);
      assert ls[0] == text[..n] && ls[1..] == ReadLines(text[n..]);
      ReadLinesCover(text[n..]);
      assert text == text[..n] + text[n..];
    }
  }

  predicate Free(t: string, stop: char) { forall k :: 0 <= k < |t| ==> t[k] != stop }

  predicate QuoteFree(s: string) { Free(s, '"') }

  predicate CommaFree(s: string) { Free(s, ',') }

  /** Length of a scanf `%w[^stop]` conversion at the front of s: the longest
      run of characters other than stop, at most w of them. */
  function Span(s: string, w: nat, stop: char): (n: nat)
    ensures n <= |s| && n <= w && Free(s[..n], stop)
    ensures n < |s| && n < w ==> s[n] == stop
    decreases w
  {
    if s == [] || w == 0 || s[0] == stop then 0 else 1 + Span(s[1..], w - 1, stop)
  }

  /** A literal character of the format: it must come next. */
  function Expect(s: string, c: char): Option<string>
  {
    if s != [] && s[0] == c then Some(s[1..]) else None
  }

  /** A `%w[^stop]` conversion: it fails unless it reads at least one character;
      otherwise it yields the field and what follows it. */
  function Conversion(s: string, w: nat, stop: char): (r: Option<(string, string)>)
    ensures r.Some? ==> 1 <= |r.value.0| <= w && Free(r.value.0, stop) && r.value.0 + r.value.1 == s
  {
    var n := Span(s, w, stop);
    if n == 0 then None else Some((s[..n], s[n..]))
  }

  /** The three fields sscanf assigns, still as text. */
  datatype Fields = Fields(date: string, charge: string, description: string)

  /** sscanf(line, "\"%10[^\"]\",\"%19[^\"]\",%*[^,],%*[^,],\"%255[^\"]\"", ...).
      None when sscanf stops before it has assigned all three fields. The
      closing quote after the description is matched after the last
      assignment, so its absence does not matter. */
  function ParseLine(line: string): (r: Option<Fields>)
    ensures r.Some? ==> 1 <= |r.value.date| <= 10 && QuoteFree(r.value.date)
    ensures r.Some? ==> 1 <= |r.value.charge| <= 19 && QuoteFree(r.value.charge)
    ensures r.Some? ==> 1 <= |r.value.description| <= 255 && QuoteFree(r.value.description)
  {
    var s0 :- Expect(line, '"');
    var date :- Conversion(s0, 10, '"');
    var s1 :- Expect(date.1, '"');
    var s2 :- Expect(s1, ',');
    var s3 :- Expect(s2, '"');
    var charge :- Conversion(s3, 19, '"');
    var s4 :- Expect(charge.1, '"');
    var s5 :- Expect(s4, ',');
    var description :- ParseTail(s5);
    Some(Fields(date.0, charge.0, description))
  }

  /** The rest of the format after the charge's closing quote and comma:
      `%*[^,],%*[^,],\"%255[^\"]`, which yields the description. */
  function ParseTail(s5: string): (r: Option<string>)
    ensures r.Some? ==> 1 <= |r.value| <= 255 && QuoteFree(r.value)
  {
    var ignored1 :- Conversion(s5, |s5|, ',');
    var s6 :- Expect(ignored1.1, ',');
    var ignored2 :- Conversion(s6, |s6|, ',');
    var s7 :- Expect(ignored2.1, ',');
    var s8 :- Expect(s7, '"');
    var description :- Conversion(s8, 255, '"');
    Some(description.0)
  }

  /** A line in the export's layout: three quoted fields and two ignored ones. */
  function FormatLine(f: Fields, ignored1: string, ignored2: string): string
  {
    ['"'] + (f.date + (['"'] + ([','] + (['"'] + (f.charge + (['"'] + ([','] + (ignored1 + ([','] + (ignored2
      + ([','] + (['"'] + (f.description + ['"', '\n'])))))))))))))
  }

  predicate Formattable(f: Fields, ignored1: string, ignored2: string)
  {
    && 1 <= |f.date| <= 10 && QuoteFree(f.date)
    && 1 <= |f.charge| <= 19 && QuoteFree(f.charge)
    && 1 <= |f.description| <= 255 && QuoteFree(f.description)
    && |ignored1| >= 1 && CommaFree(ignored1)
    && |ignored2| >= 1 && CommaFree(ignored2)
  }

  lemma FreeConcat(a: string, b: string, c: char)
    requires Free(a, c) && Free(b, c)
    ensures Free(a + b, c)
  {
    forall k | 0 <= k < |a + b| ensures (a + b)[k] != c {
      if k >= |a| { assert (a + b)[k] == b[k - |a|]; }
    }
  }

  lemma DigitsFree(s: string, c: char)
    requires AllDigits(s) && !IsDigit(c)
    ensures Free(s, c)
  {
  }

  /** A conversion over a field that is followed by its stop character takes exactly the field. */
  lemma {:induction false} SpanField(t: string, rest: string, w: nat, stop: char)
    requires |t| <= w && Free(t, stop) && rest != [] && rest[0] == stop
    ensures Span(t + rest, w, stop) == |t|
    decreases |t|
  {
    if t != [] {
      SpanField(t[1..], rest, w - 1, stop);
      assert (t + rest)[1..] == t[1..] + rest;
    }
  }

  lemma ConversionField(t: string, rest: string, w: nat, stop: char)
    requires 1 <= |t| <= w && Free(t, stop) && rest != [] && rest[0] == stop
    ensures Conversion(t + rest, w, stop) == Some((t, rest))
  {
    SpanField(t, rest, w, stop);
    assert (t + rest)[..|t|] == t;
    assert (t + rest)[|t|..] == rest;
  }

  /** sscanf recovers the three fields of a line written in the export's layout. */
  lemma ParseFormatted(f: Fields, ignored1: string, ignored2: string)
    requires Formattable(f, ignored1, ignored2)
    ensures ParseLine(FormatLine(f, ignored1, ignored2)) == Some(f)
  {
    var r8 := ['"'] + (f.description + ['"', '\n']);
    var r5 := ignored1 + ([','] + (ignored2 + ([','] + r8)));
    var r4 := [','] + r5;
    var r2 := ['"'] + r4;
    var r1 := f.charge + r2;
    var r0 := ['"'] + ([','] + (['"'] + r1));
    var line := FormatLine(f, ignored1, ignored2);
    assert line == ['"'] + (f.date + r0);
    assert Expect(line, '"') == Some(f.date + r0);
    ConversionField(f.date, r0, 10, '"');
    assert Expect(r0, '"') == Some([','] + (['"'] + r1));
    assert Expect([','] + (['"'] + r1), ',') == Some(['"'] + r1);
    assert Expect(['"'] + r1, '"') == Some(r1);
    ConversionField(f.charge, r2, 19, '"');
    assert Expect(r2, '"') == Some(r4);
    assert Expect(r4, ',') == Some(r5);
    TailFormatted(ignored1, ignored2, f.description);
  }

  /** The tail of the format skips the two ignored fields and reads the description. */
  lemma TailFormatted(ignored1: string, ignored2: string, description: string)
    requires |ignored1| >= 1 && CommaFree(ignored1) && |ignored2| >= 1 && CommaFree(ignored2)
    requires 1 <= |description| <= 255 && QuoteFree(description)
    ensures ParseTail(ignored1 + ([','] + (ignored2 + ([','] + (['"'] + (description + ['"', '\n'])))))) == Some(description)
  {
    var r8 := ['"'] + (description + ['"', '\n']);
    var r7 := [','] + r8;
    var r6 := ignored2 + r7;
    var r5 := ignored1 + ([','] + r6);
    ConversionField(ignored1, [','] + r6, |r5|, ',');
    assert Expect([','] + r6, ',') == Some(r6);
    ConversionField(ignored2, r7, |r6|, ',');
    assert Expect(r7, ',') == Some(r8);
    assert Expect(r8, '"') == Some(description + ['"', '\n']);
    ConversionField(description, ['"', '\n'], 255, '"');
  }

  /** Number of leading decimal digits. */
  function DigitRun(s: string): (n: nat)
    ensures n <= |s| && AllDigits(s[..n])
    ensures n < |s| ==> !IsDigit(s[n])
  {
    if s == [] || !IsDigit(s[0]) then 0 else 1 + DigitRun(s[1..])
  }

  /** The value of an unsigned decimal numeral: "ddd", "ddd.", "ddd.ddd" or ".ddd". */
  function UnsignedValue(s: string): (r: Option<real>)
    ensures r.Some? ==> r.value >= 0.0
  {
    var k := DigitRun(s);
    if k == |s| then
      if k == 0 then None else Some(NumberValue(s) as real)
    else if s[k] == '.' && AllDigits(s[k + 1..]) && (k > 0 || k + 1 < |s|) then
      Some(NumberValue(s[..k]) as real + NumberValue(s[k + 1..]) as real / Pow10(|s| - k - 1) as real)
    else None
  }

  /** The charge text read as a signed decimal numeral. The source splices the
      text unquoted into its SQL (import.c:63, 86), so for a numeral the stored
      REAL is its value. The model reads only a plain signed decimal numeral
      and skips any other charge text; see README, "Left out"
      (Csv.ParseCharge). */
  function ParseCharge(s: string): Option<real>
  {
    if s != [] && s[0] == '-' then
      match UnsignedValue(s[1..])
      case Some(v) => Some(-v)
      case None => None
    else if s != [] && s[0] == '+' then UnsignedValue(s[1..])
    else UnsignedValue(s)
  }

  function Abs(n: int): nat { if n < 0 then -n else n }

  /** An amount in cents written the way the bank writes it: "-20.00", "1234.05". */
  function FormatCents(cents: int): string
  {
    (if cents < 0 then ['-'] else []) + Digits(Abs(cents) / 100) + ['.'] + Pad(Abs(cents) % 100, 2)
  }

  lemma DigitRunStops(a: string, b: string)
    requires AllDigits(a) && b != [] && !IsDigit(b[0])
    ensures DigitRun(a + b) == |a|
  {
    if a != [] {
      DigitRunStops(a[1..], b);
      assert (a + b)[1..] == a[1..] + b;
    }
  }

  lemma UnsignedCents(n: nat)
    ensures UnsignedValue(Digits(n / 100) + ['.'] + Pad(n % 100, 2)) == Some(n as real / 100.0)
  {
    var q, r := n / 100, n % 100;
    var s := Digits(q) + ['.'] + Pad(r, 2);
    DigitRunStops(Digits(q), ['.'] + Pad(r, 2));
    assert s == Digits(q) + (['.'] + Pad(r, 2));
    var k := |Digits(q)|;
    assert s[..k] == Digits(q);
    assert s[k] == '.';
    assert s[k + 1..] == Pad(r, 2);
    DigitsValue(q);
    PadValue(r, 2);
    assert n as real == 100.0 * q as real + r as real;
  }

  /** Reading back an amount written in cents gives the amount. */
  lemma ChargeRoundTrip(cents: int)
    ensures ParseCharge(FormatCents(cents)) == Some(cents as real / 100.0)
  {
    if cents < 0 {
      DebitRoundTrip(cents);
    } else {
      CreditRoundTrip(cents);
    }
  }

  lemma CreditRoundTrip(cents: nat)
    ensures ParseCharge(FormatCents(cents)) == Some(cents as real / 100.0)
  {
    var u := Digits(cents / 100) + ['.'] + Pad(cents % 100, 2);
    UnsignedCents(cents);
    assert FormatCents(cents) == u;
    assert u[0] == Digits(cents / 100)[0];
  }

  lemma DebitRoundTrip(cents: int)
    requires cents < 0
    ensures ParseCharge(FormatCents(cents)) == Some(cents as real / 100.0)
  {
    var n := -cents;
    var u := Digits(n / 100) + ['.'] + Pad(n % 100, 2);
    UnsignedCents(n);
    assert FormatCents(cents) == ['-'] + u;
    NegatedText(u);
    NegatedCents(cents);
  }

  /** A minus sign negates the numeral after it. */
  lemma NegatedText(u: string)
    requires UnsignedValue(u).Some?
    ensures ParseCharge(['-'] + u) == Some(-UnsignedValue(u).value)
  {
    assert (['-'] + u)[1..] == u;
  }

  /** The arithmetic step of DebitRoundTrip: negating the amount of the
      unsigned cents gives the amount of the negative cents. */
  lemma NegatedCents(cents: int)
    requires cents < 0
    ensures -((-cents) as real / 100.0) == cents as real / 100.0
  {
  }

  /** A line the importer can act on: its three fields, the charge read as a
      number and the date rewritten as strftime writes it. */
  datatype Record = Record(date: string, charge: real, description: string)

  /** The importer's reading of one line. None where the source goes on with
      unassigned or garbage fields, or where the charge is not a numeral. */
  function ParseRecord(line: string): (r: Option<Record>)
    ensures r.Some? ==> WrittenDate(r.value.date)
    ensures r.Some? ==> 1 <= |r.value.description| <= 255 && QuoteFree(r.value.description)
  {
    var f :- ParseLine(line);
    var v :- ParseCharge(f.charge);
    var d :- ParseUsDate(f.date);
    IsoRoundTrip(d);
    Some(Record(FormatIso(d), v, f.description))
  }

  /** The bank's date and amount texts never contain a double quote. */
  lemma TextsQuoteFree(d: Date, cents: int)
    ensures QuoteFree(FormatUs(d)) && |FormatUs(d)| == 10
    ensures QuoteFree(FormatCents(cents))
  {
    var n := Abs(cents);
    DigitsFree(Digits(n / 100), '"');
    DigitsFree(Pad(n % 100, 2), '"');
    FreeConcat(if cents < 0 then ['-'] else [], Digits(n / 100), '"');
    FreeConcat((if cents < 0 then ['-'] else []) + Digits(n / 100), ['.'], '"');
    FreeConcat((if cents < 0 then ['-'] else []) + Digits(n / 100) + ['.'], Pad(n % 100, 2), '"');
    DigitsFree(Pad(d.month, 2), '"');
    DigitsFree(Pad(d.day, 2), '"');
    DigitsFree(Pad(d.year, 4), '"');
    FreeConcat(Pad(d.month, 2), ['/'], '"');
    FreeConcat(Pad(d.month, 2) + ['/'], Pad(d.day, 2), '"');
    FreeConcat(Pad(d.month, 2) + ['/'] + Pad(d.day, 2), ['/'], '"');
    FreeConcat(Pad(d.month, 2) + ['/'] + Pad(d.day, 2) + ['/'], Pad(d.year, 4), '"');
  }

  /** A line in the export's layout becomes the record with its date
      rewritten, its charge read as a number and its description kept.
      NormalizeFormatted and ChargeRoundTrip supply the two premises for
      the dates and amounts the bank writes. */
  lemma RecordOfFormattedLine(dateText: string, chargeText: string, description: string,
                              ignored1: string, ignored2: string, d: Date, v: real)
    requires Formattable(Fields(dateText, chargeText, description), ignored1, ignored2)
    requires ParseCharge(chargeText) == Some(v) && ParseUsDate(dateText) == Some(d)
    ensures ParseRecord(FormatLine(Fields(dateText, chargeText, description), ignored1, ignored2))
         == Some(Record(FormatIso(d), v, description))
  {
    var f := Fields(dateText, chargeText, description);
    ParseFormatted(f, ignored1, ignored2);
    ParseRecordOf(FormatLine(f, ignored1, ignored2), f, v, d);
  }

  /** ParseRecord in terms of its three stages. */
  lemma ParseRecordOf(line: string, f: Fields, v: real, d: Date)
    requires ParseLine(line) == Some(f) && ParseCharge(f.charge) == Some(v) && ParseUsDate(f.date) == Some(d)
    ensures ParseRecord(line) == Some(Record(FormatIso(d), v, f.description))
  {
  }
}
