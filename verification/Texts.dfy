/** Decimal numbers in C strings, shared by the text formats. */
module Texts {

  /** `Rejected` is a parse failure; `Undefined` is a text on which the parser reads
      past the terminating NUL. */
  datatype Parse<T> = Parsed(value: T, rest: string) | Rejected | Undefined

  predicate IsDigit(c: char) {
    '0' <= c <= '9'
  }

  function DigitValue(c: char): int {
    c as int - '0' as int
  }

  function Digit(d: nat): char
    requires d < 10
  {
    ('0' as int + d) as char
  }

  function Decimal(n: nat): (r: string)
    ensures r != "" && forall i :: 0 <= i < |r| ==> IsDigit(r[i])
  {
    if n < 10 then [Digit(n)] else Decimal(n / 10) + [Digit(n % 10)]
  }

  function ScanDigits(s: string, n: int): (r: Parse<int>)
    ensures r.Parsed? && |r.rest| <= |s|
    ensures s != "" && IsDigit(s[0]) ==> |r.rest| < |s|
  {
    if s != "" && IsDigit(s[0]) then ScanDigits(s[1..], n * 10 + DigitValue(s[0])) else Parsed(n, s)
  }

  // ----- Reading back what was written -----

  function Pow10(k: nat): nat {
    if k == 0 then 1 else 10 * Pow10(k - 1)
  }

  lemma {:induction false} DecimalLength(n: nat, k: nat)
    requires k > 0 && n < Pow10(k)
    ensures |Decimal(n)| <= k
    decreases k
  {
    if n >= 10 {
      DecimalLength(n / 10, k - 1);
    }
  }

  lemma {:induction false} DecimalIsLong(n: nat, k: nat)
    requires n >= Pow10(k)
    ensures |Decimal(n)| > k
    decreases k
  {
    if k > 0 {
      DecimalIsLong(n / 10, k - 1);
    }
  }

  function Fold(ds: string, n: int): int {
    if ds == "" then n else Fold(ds[1..], n * 10 + DigitValue(ds[0]))
  }

  lemma {:induction false} FoldLast(ds: string, d: char, n: int)
    ensures Fold(ds + [d], n) == Fold(ds, n) * 10 + DigitValue(d)
    decreases |ds|
  {
    if ds == "" {
      assert (ds + [d])[1..] == "";
    } else {
      assert (ds + [d])[1..] == ds[1..] + [d];
      FoldLast(ds[1..], d, n * 10 + DigitValue(ds[0]));
    }
  }

  lemma {:induction false} DecimalValue(n: nat)
    ensures Fold(Decimal(n), 0) == n
    ensures Decimal(n)[0] == '0' <==> n == 0
    decreases n
  {
    if n >= 10 {
      DecimalValue(n / 10);
      FoldLast(Decimal(n / 10), Digit(n % 10), 0);
    }
  }

  ghost predicate Delimited(s: string) {
    s != "" ==> !IsDigit(s[0])
  }

  lemma {:induction false} ScanFolds(ds: string, s: string, n: int)
    requires forall i :: 0 <= i < |ds| ==> IsDigit(ds[i])
    requires Delimited(s)
    ensures ScanDigits(ds + s, n) == Parsed(Fold(ds, n), s)
    decreases |ds|
  {
    if ds == "" {
      assert ds + s == s;
    } else {
      assert (ds + s)[1..] == ds[1..] + s;
      ScanFolds(ds[1..], s, n * 10 + DigitValue(ds[0]));
    }
  }
}
