/** Small shared vocabulary: an Option type, decimal digits and the byte-wise
    text order SQLite uses for its BINARY collation. */
module Common {

  datatype Option<T> = None | Some(value: T) {
    predicate IsFailure() { None? }

    function PropagateFailure<U>(): Option<U>
      requires None?
    {
      None
    }

    function Extract(): T
      requires Some?
    {
      value
    }
  }

  predicate IsDigit(c: char) { '0' <= c <= '9' }

  predicate AllDigits(s: string) { forall i :: 0 <= i < |s| ==> IsDigit(s[i]) }

  function DigitValue(c: char): nat
    requires IsDigit(c)
  {
    c as int - '0' as int
  }

  function DigitChar(d: nat): (c: char)
    requires d < 10
    ensures IsDigit(c) && DigitValue(c) == d
  {
    ('0' as int + d) as char
  }

  function Pow10(n: nat): (p: nat)
    ensures p >= 1
  {
    if n == 0 then 1 else 10 * Pow10(n - 1)
  }

  /** The value of a string of decimal digits, most significant digit first. */
  function NumberValue(s: string): nat
    requires AllDigits(s)
    decreases |s|
  {
    if s == [] then 0 else 10 * NumberValue(s[..|s| - 1]) + DigitValue(s[|s| - 1])
  }

  /** The last w decimal digits of n, zero-padded: C's "%0wd" when n < 10^w. */
  function Pad(n: nat, w: nat): (s: string)
    ensures |s| == w && AllDigits(s)
  {
    if w == 0 then [] else Pad(n / 10, w - 1) + [DigitChar(n % 10)]
  }

  /** Decimal text of n without padding, as C's "%d" writes a non-negative int. */
  function Digits(n: nat): (s: string)
    ensures |s| >= 1 && AllDigits(s)
    decreases n
  {
    if n < 10 then [DigitChar(n)] else Digits(n / 10) + [DigitChar(n % 10)]
  }

  /** C's "%d" for any int. */
  function IntText(n: int): string
  {
    if n < 0 then ['-'] + Digits(-n) else Digits(n)
  }

  lemma {:induction false} PadValue(n: nat, w: nat)
    requires n < Pow10(w)
    ensures NumberValue(Pad(n, w)) == n
  {
    if w > 0 {
      PadValue(n / 10, w - 1);
      var s := Pad(n, w);
      assert s[..|s| - 1] == Pad(n / 10, w - 1);
    }
  }

  lemma {:induction false} DigitsValue(n: nat)
    ensures NumberValue(Digits(n)) == n
    decreases n
  {
    if n >= 10 {
      DigitsValue(n / 10);
      var s := Digits(n);
      assert s[..|s| - 1] == Digits(n / 10);
    }
  }

  /** Padding the value of a digit string back to its own width gives the string back. */
  lemma {:induction false} PadOfValue(s: string)
    requires AllDigits(s)
    ensures Pad(NumberValue(s), |s|) == s
    decreases |s|
  {
    if s != [] {
      var init := s[..|s| - 1];
      PadOfValue(init);
      var v := NumberValue(s);
      assert v / 10 == NumberValue(init);
      assert v % 10 == DigitValue(s[|s| - 1]);
      assert s == init + [s[|s| - 1]];
    }
  }

  lemma {:induction false} NumberValueBound(s: string)
    requires AllDigits(s)
    ensures NumberValue(s) < Pow10(|s|)
    decreases |s|
  {
    if s != [] {
      NumberValueBound(s[..|s| - 1]);
    }
  }

  /** Two digit strings of one width are equal exactly when their values are. */
  lemma NumberValueInjective(a: string, b: string)
    requires AllDigits(a) && AllDigits(b) && |a| == |b|
    requires NumberValue(a) == NumberValue(b)
    ensures a == b
  {
    PadOfValue(a);
    PadOfValue(b);
  }

  /** "%d" and "%0wd" agree on numbers with exactly w digits. */
  lemma {:induction false} DigitsIsPad(n: nat, w: nat)
    requires w >= 1 && Pow10(w - 1) <= n < Pow10(w)
    ensures Digits(n) == Pad(n, w)
    decreases w
  {
    if w == 1 {
      assert n < 10;
    } else {
      assert n >= 10;
      DigitsIsPad(n / 10, w - 1);
    }
  }

  /** A number below 10^k has at most k decimal digits. */
  lemma {:induction false} DigitsShort(n: nat, k: nat)
    requires 1 <= k && n < Pow10(k)
    ensures |Digits(n)| <= k
    decreases n
  {
    if n >= 10 {
      assert k >= 2;
      DigitsShort(n / 10, k - 1);
    }
  }

  /** Strict byte-wise lexicographic order on text. */
  predicate LexLess(a: string, b: string)
    decreases |a|
  {
    if a == [] then b != []
    else if b == [] then false
    else if a[0] < b[0] then true
    else a[0] == b[0] && LexLess(a[1..], b[1..])
  }

  /** Text comparison `a <= b` under SQLite's BINARY collation. */
  predicate LexLessEq(a: string, b: string)
  {
    a == b || LexLess(a, b)
  }

  /** Any two texts are ordered one way or the other. */
  lemma {:induction false} LexTotal(a: string, b: string)
    ensures LexLessEq(a, b) || LexLessEq(b, a)
    decreases |a|
  {
    if a != [] && b != [] && a[0] == b[0] {
      LexTotal(a[1..], b[1..]);
      if a[1..] == b[1..] {
        assert a == [a[0]] + a[1..] && b == [b[0]] + b[1..];
      }
    }
  }
}
