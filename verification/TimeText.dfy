/** The texts in which schedules are stored: numbers, times, token lists. */
module TimeText {
  import opened Texts
  import opened Sequences

  // ----- Numbers and times -----

  predicate Space(c: char) {
    c == ' ' || '\t' <= c <= '\r'
  }

  function ReadDigits(s: string): (r: Parse<int>)
    ensures r.Parsed? ==> r.value >= 0
  {
    if s != "" && IsDigit(s[0]) then
      ScanNonNegative(s, 0);
      ScanDigits(s, 0)
    else Rejected
  }

  lemma {:induction false} ScanNonNegative(s: string, n: int)
    requires n >= 0
    ensures ScanDigits(s, n).value >= 0
    decreases |s|
  {
    if s != "" && IsDigit(s[0]) {
      ScanNonNegative(s[1..], n * 10 + DigitValue(s[0]));
    }
  }

  /** The `%d` conversion: blanks, a sign, at least one digit. */
  function ReadInt(s: string): Parse<int> {
    if s == "" then Rejected
    else if Space(s[0]) then ReadInt(s[1..])
    else if s[0] == '-' then
      var r := ReadDigits(s[1..]);
      if r.Parsed? then Parsed(-r.value, r.rest) else Rejected
    else if s[0] == '+' then ReadDigits(s[1..])
    else ReadDigits(s)
  }

  function Atoi(s: string): int {
    var r := ReadInt(s);
    if r.Parsed? then r.value else 0
  }

  datatype Time = Time(hour: int, min: int)

  datatype Range = Range(start: Time, end: Time)

  function ReadTime(s: string): Parse<Time> {
    var hour := ReadInt(s);
    if hour.Parsed? && hour.rest != "" && hour.rest[0] == ':' then
      var min := ReadInt(hour.rest[1..]);
      if min.Parsed? then Parsed(Time(hour.value, min.value), min.rest) else Rejected
    else Rejected
  }

  /** `sscanf` with "%d:%d-%d:%d", all four converted. */
  function ReadRange(s: string): Parse<Range> {
    var start := ReadTime(s);
    if start.Parsed? && start.rest != "" && start.rest[0] == '-' then
      var end := ReadTime(start.rest[1..]);
      if end.Parsed? then Parsed(Range(start.value, end.value), end.rest) else Rejected
    else Rejected
  }

  /** "%02d" */
  function Padded(n: int): string {
    if n < 0 then "-" + Decimal(-n)
    else if n < 10 then "0" + Decimal(n)
    else Decimal(n)
  }

  function Clip(s: string, limit: nat): string {
    if |s| <= limit then s else s[..limit]
  }

  const TIME_CHARS := 15

  function FullTime(t: Time): string {
    Padded(t.hour) + (":" + Padded(t.min))
  }

  /** The buffer of a time holds fifteen characters. */
  function WriteTime(t: Time): string {
    Clip(FullTime(t), TIME_CHARS)
  }

  function FullRange(r: Range): string {
    FullTime(r.start) + ("-" + FullTime(r.end))
  }

  function WriteRange(r: Range): string {
    WriteTime(r.start) + ("-" + WriteTime(r.end))
  }

  predicate ShortTime(t: Time) {
    |FullTime(t)| <= TIME_CHARS
  }

  predicate Short(r: Range) {
    ShortTime(r.start) && ShortTime(r.end)
  }

  // ----- Numbers and times read back -----

  lemma DecimalReads(n: nat, s: string)
    requires Delimited(s)
    ensures ReadDigits(Decimal(n) + s) == Parsed(n, s)
  {
    DecimalValue(n);
    ScanFolds(Decimal(n), s, 0);
    assert (Decimal(n) + s)[0] == Decimal(n)[0];
  }

  lemma ZeroPaddedReads(n: nat, s: string)
    requires Delimited(s)
    ensures ReadDigits("0" + (Decimal(n) + s)) == Parsed(n, s)
  {
    var t := "0" + (Decimal(n) + s);
    assert t[1..] == Decimal(n) + s;
    DecimalReads(n, s);
    assert ScanDigits(t, 0) == ScanDigits(t[1..], 0);
  }

  lemma PaddedReads(n: int, s: string)
    requires Delimited(s)
    ensures ReadInt(Padded(n) + s) == Parsed(n, s)
  {
    if n < 0 {
      Regroup("-", Decimal(-n), s);
      assert ("-" + (Decimal(-n) + s))[1..] == Decimal(-n) + s;
      DecimalReads(-n, s);
    } else if n < 10 {
      Regroup("0", Decimal(n), s);
      ZeroPaddedReads(n, s);
    } else {
      assert (Decimal(n) + s)[0] == Decimal(n)[0];
      DecimalReads(n, s);
    }
  }

  lemma TimeReads(t: Time, s: string)
    requires Delimited(s)
    ensures ReadTime(FullTime(t) + s) == Parsed(t, s)
  {
    var tail := ":" + (Padded(t.min) + s);
    assert FullTime(t) + s == Padded(t.hour) + tail;
    PaddedReads(t.hour, tail);
    assert tail[1..] == Padded(t.min) + s;
    PaddedReads(t.min, s);
  }

  predicate Blanks(s: string) {
    forall i :: 0 <= i < |s| ==> s[i] as int == 32 || 9 <= s[i] as int <= 13
  }

  lemma {:induction false} SignedDigits(sign: string, digits: string, s: string)
    requires (sign == "" || sign == "-" || sign == "+") && Delimited(s)
    requires digits != "" && forall i :: 0 <= i < |digits| ==> IsDigit(digits[i])
    ensures ReadInt(sign + (digits + s)) == Parsed(if sign == "-" then -Fold(digits, 0) else Fold(digits, 0), s)
  {
    var text := sign + (digits + s);
    ScanFolds(digits, s, 0);
    assert (digits + s)[0] == digits[0];
    if sign == "" {
      assert text == digits + s;
    } else {
      assert text[0] == sign[0] && text[1..] == digits + s;
    }
  }

  /** Blanks, an optional sign and at least one digit are read as that number. */
  lemma {:induction false} ReadIntMeaning(blank: string, sign: string, digits: string, s: string)
    requires Blanks(blank) && (sign == "" || sign == "-" || sign == "+") && Delimited(s)
    requires digits != "" && forall i :: 0 <= i < |digits| ==> IsDigit(digits[i])
    ensures ReadInt(blank + (sign + (digits + s))) == Parsed(if sign == "-" then -Fold(digits, 0) else Fold(digits, 0), s)
    decreases |blank|
  {
    var text := sign + (digits + s);
    if blank == "" {
      assert blank + text == text;
      SignedDigits(sign, digits, s);
    } else {
      assert (blank + text)[1..] == blank[1..] + text;
      ReadIntMeaning(blank[1..], sign, digits, s);
    }
  }

  /** Without a digit nothing is read. */
  lemma {:induction false} ReadIntNeedsDigit(blank: string, sign: string, s: string)
    requires Blanks(blank) && (sign == "-" || sign == "+" || (sign == "" && (s != "" ==> s[0] != '-' && s[0] != '+')))
    requires Delimited(s) && (s != "" ==> !Blanks([s[0]]))
    ensures ReadInt(blank + (sign + s)) == Rejected
    decreases |blank|
  {
    if blank == "" {
      assert blank + (sign + s) == sign + s;
      if sign == "" {
        assert sign + s == s;
        assert s != "" ==> [s[0]][0] == s[0];
      } else {
        assert (sign + s)[1..] == s;
      }
    } else {
      assert (blank + (sign + s))[1..] == blank[1..] + (sign + s);
      ReadIntNeedsDigit(blank[1..], sign, s);
    }
  }

  /** Hours and minutes below a hundred are written with two digits. */
  lemma {:induction false} TwoDigits(hour: nat, min: nat)
    requires hour < 100 && min < 100
    ensures WriteTime(Time(hour, min)) == [Digit(hour / 10), Digit(hour % 10), ':', Digit(min / 10), Digit(min % 10)]
  {
    TwoDigit(hour);
    TwoDigit(min);
  }

  lemma {:induction false} TwoDigit(n: nat)
    requires n < 100
    ensures Padded(n) == [Digit(n / 10), Digit(n % 10)]
  {
    if n >= 10 {
      assert Decimal(n / 10) == [Digit(n / 10)];
    }
  }

  // ----- Times that do not fit their buffer -----

  ghost predicate Int32(n: int) {
    -0x8000_0000 <= n < 0x8000_0000
  }

  ghost predicate Int32Range(r: Range) {
    Int32(r.start.hour) && Int32(r.start.min) && Int32(r.end.hour) && Int32(r.end.min)
  }

  lemma Int32Length(n: int)
    requires Int32(n)
    ensures |Padded(n)| <= 11
  {
    assert Pow10(10) == 10000000000;
    DecimalLength(if n < 0 then -n else n, 10);
  }

  /** Cutting digits off a number without leading zeros makes it at least ten times smaller. */
  lemma {:induction false} CutIsSmaller(ds: string, j: nat)
    requires 0 < j <= |ds| && forall i :: 0 <= i < |ds| ==> IsDigit(ds[i])
    requires ds[0] != '0'
    ensures 0 < Fold(ds[..j], 0) <= Fold(ds, 0)
    ensures j < |ds| ==> 10 * Fold(ds[..j], 0) <= Fold(ds, 0)
    decreases |ds|
  {
    var front, last := ds[..|ds| - 1], ds[|ds| - 1];
    if |ds| == 1 {
      assert ds[..j] == ds && ds[1..] == "";
      assert Fold(ds, 0) == DigitValue(ds[0]);
    } else {
      assert ds == front + [last];
      FoldLast(front, last, 0);
      if j < |ds| {
        assert front[..j] == ds[..j];
        CutIsSmaller(front, j);
      } else {
        assert ds[..j] == ds;
        CutIsSmaller(front, |front|);
      }
    }
  }

  lemma CutDecimalReads(n: nat, j: nat, s: string)
    requires Delimited(s) && n > 0 && 0 < j < |Decimal(n)|
    ensures ReadDigits(Decimal(n)[..j] + s).Parsed?
    ensures 0 < 10 * ReadDigits(Decimal(n)[..j] + s).value <= n
    ensures ReadDigits(Decimal(n)[..j] + s).rest == s
  {
    DecimalValue(n);
    CutIsSmaller(Decimal(n), j);
    ScanFolds(Decimal(n)[..j], s, 0);
    assert (Decimal(n)[..j] + s)[0] == Decimal(n)[0];
  }

  lemma CutNegativeReads(n: nat, j: nat, s: string)
    requires Delimited(s) && n > 0 && 0 < j < |Decimal(n)|
    ensures ReadInt("-" + (Decimal(n)[..j] + s)).Parsed?
    ensures ReadInt("-" + (Decimal(n)[..j] + s)).value + n > 0
    ensures ReadInt("-" + (Decimal(n)[..j] + s)).rest == s
  {
    CutDecimalReads(n, j, s);
    var cut := Decimal(n)[..j] + s;
    assert ("-" + cut)[0] == '-' && ("-" + cut)[1..] == cut;
  }

  lemma CutPositiveReads(n: nat, j: nat, s: string)
    requires Delimited(s) && n > 0 && 0 < j < |Decimal(n)|
    ensures ReadInt(Decimal(n)[..j] + s) == ReadDigits(Decimal(n)[..j] + s)
  {
  }

  lemma CutPaddedReads(n: int, j: nat, s: string)
    requires Delimited(s) && 3 <= j < |Padded(n)|
    ensures ReadInt(Padded(n)[..j] + s).Parsed?
    ensures ReadInt(Padded(n)[..j] + s).value != n
    ensures n >= 0 ==> 10 * ReadInt(Padded(n)[..j] + s).value <= n
    ensures ReadInt(Padded(n)[..j] + s).rest == s
  {
    if n < 0 {
      assert Padded(n)[..j] == "-" + Decimal(-n)[..j - 1];
      Regroup("-", Decimal(-n)[..j - 1], s);
      CutNegativeReads(-n, j - 1, s);
    } else {
      assert n >= 10;
      CutPositiveReads(n, j, s);
      CutDecimalReads(n, j, s);
    }
  }

  lemma CutTimeReads(t: Time, s: string)
    requires !ShortTime(t) && Int32(t.hour) && Delimited(s)
    ensures ReadTime(WriteTime(t) + s).Parsed?
    ensures ReadTime(WriteTime(t) + s).value != t && ReadTime(WriteTime(t) + s).value.hour == t.hour
    ensures t.min >= 0 ==> 10 * ReadTime(WriteTime(t) + s).value.min <= t.min
    ensures ReadTime(WriteTime(t) + s).rest == s
  {
    Int32Length(t.hour);
    var j := TIME_CHARS - |Padded(t.hour)| - 1;
    var tail := ":" + (Padded(t.min)[..j] + s);
    assert WriteTime(t) + s == Padded(t.hour) + tail;
    PaddedReads(t.hour, tail);
    assert tail[1..] == Padded(t.min)[..j] + s;
    CutPaddedReads(t.min, j, s);
  }

  /** A written time always reads back as some time, and as the same one exactly when it
      fits its buffer. */
  lemma TimeReadsIff(t: Time, s: string)
    requires Int32(t.hour) && Delimited(s)
    ensures ReadTime(WriteTime(t) + s).Parsed? && ReadTime(WriteTime(t) + s).rest == s
    ensures ReadTime(WriteTime(t) + s).value == t <==> ShortTime(t)
  {
    if ShortTime(t) {
      TimeReads(t, s);
    } else {
      CutTimeReads(t, s);
    }
  }

  /** A range in full reads back. */
  lemma FullRangeReads(r: Range)
    ensures ReadRange(FullRange(r)) == Parsed(r, "")
  {
    var tail := "-" + FullTime(r.end);
    TimeReads(r.start, tail);
    assert tail[1..] == FullTime(r.end) + "";
    TimeReads(r.end, "");
  }

  lemma RangeReadsIff(r: Range)
    requires Int32Range(r)
    ensures ReadRange(WriteRange(r)).Parsed?
    ensures ReadRange(WriteRange(r)).value == r <==> Short(r)
  {
    var tail := "-" + WriteTime(r.end);
    TimeReadsIff(r.start, tail);
    assert tail[1..] == WriteTime(r.end) + "";
    TimeReadsIff(r.end, "");
  }

  /** Cutting a start time off loses digits of its minutes. */
  lemma CutStartReads(r: Range)
    requires Int32Range(r) && !ShortTime(r.start) && ShortTime(r.end) && r.start.min >= 0
    ensures ReadRange(WriteRange(r)).Parsed?
    ensures ReadRange(WriteRange(r)).value.start.hour == r.start.hour && ReadRange(WriteRange(r)).value.end == r.end
    ensures 10 * ReadRange(WriteRange(r)).value.start.min <= r.start.min
  {
    var tail := "-" + WriteTime(r.end);
    CutTimeReads(r.start, tail);
    assert tail[1..] == WriteTime(r.end) + "";
    TimeReadsIff(r.end, "");
  }

  // ----- Token lists -----

  ghost predicate Lacks(s: string, c: char) {
    forall i :: 0 <= i < |s| ==> s[i] != c
  }

  /** The text up to the separator. */
  function Word(s: string, sep: char): (w: string)
    ensures |w| <= |s| && Lacks(w, sep) && w == s[..|w|]
    ensures |w| < |s| ==> s[|w|] == sep
  {
    if s == "" || s[0] == sep then "" else [s[0]] + Word(s[1..], sep)
  }

  /** The tokens `strtok_r` gives: the non-empty pieces between separators. */
  function Tokens(s: string, sep: char): seq<string>
    decreases |s|
  {
    if s == "" then []
    else if s[0] == sep then Tokens(s[1..], sep)
    else [Word(s, sep)] + Tokens(s[|Word(s, sep)|..], sep)
  }

  function Join(pieces: seq<string>, sep: char): string {
    if pieces == [] then ""
    else if |pieces| == 1 then pieces[0]
    else pieces[0] + ([sep] + Join(pieces[1..], sep))
  }

  ghost predicate Pieces(pieces: seq<string>, sep: char) {
    forall i :: 0 <= i < |pieces| ==> pieces[i] != "" && Lacks(pieces[i], sep)
  }

  lemma {:induction false} WordStops(w: string, s: string, sep: char)
    requires Lacks(w, sep) && (s != "" ==> s[0] == sep)
    ensures Word(w + s, sep) == w
    decreases |w|
  {
    if w == "" {
      assert w + s == s;
    } else {
      assert (w + s)[1..] == w[1..] + s && (w + s)[0] == w[0];
      WordStops(w[1..], s, sep);
    }
  }

  lemma FirstToken(w: string, s: string, sep: char)
    requires w != "" && Lacks(w, sep) && (s != "" ==> s[0] == sep)
    ensures Tokens(w + s, sep) == [w] + Tokens(s, sep)
  {
    WordStops(w, s, sep);
    assert (w + s)[0] == w[0] && (w + s)[|w|..] == s;
  }

  /** Joined pieces come back as the tokens. */
  lemma {:induction false} TokensOfJoin(pieces: seq<string>, sep: char)
    requires Pieces(pieces, sep)
    ensures Tokens(Join(pieces, sep), sep) == pieces
    decreases |pieces|
  {
    if |pieces| == 1 {
      assert pieces[0] == pieces[0] + "";
      FirstToken(pieces[0], "", sep);
    } else if |pieces| > 1 {
      var tail := [sep] + Join(pieces[1..], sep);
      FirstToken(pieces[0], tail, sep);
      assert tail[1..] == Join(pieces[1..], sep);
      TokensOfJoin(pieces[1..], sep);
    }
  }

  /** Together with single pieces this determines the tokens of every text: a separator ends
      one and stands for nothing itself. */
  lemma {:induction false} TokensSplit(a: string, b: string, sep: char)
    ensures Tokens(a + ([sep] + b), sep) == Tokens(a, sep) + Tokens(b, sep)
    decreases |a|
  {
    var text := a + ([sep] + b);
    if a == "" {
      assert text == [sep] + b && text[1..] == b;
    } else if a[0] == sep {
      assert text[1..] == a[1..] + ([sep] + b);
      TokensSplit(a[1..], b, sep);
    } else {
      var w := Word(a, sep);
      var rest := a[|w|..];
      assert a == w + rest && w != "";
      Regroup(w, rest, [sep] + b);
      FirstToken(w, rest, sep);
      FirstToken(w, rest + ([sep] + b), sep);
      TokensSplit(rest, b, sep);
      Regroup([w], Tokens(rest, sep), Tokens(b, sep));
    }
  }

  lemma {:induction false} TokensOfPiece(w: string, sep: char)
    requires Lacks(w, sep)
    ensures Tokens(w, sep) == if w == "" then [] else [w]
  {
    if w != "" {
      assert w + "" == w;
      FirstToken(w, "", sep);
    }
  }

  lemma SkipSeparator(s: string, i: nat, sep: char)
    requires i < |s| && s[i] == sep
    ensures Tokens(s[i..], sep) == Tokens(s[i + 1..], sep)
  {
  }

  lemma TokenAt(s: string, from: nat, next: nat, sep: char)
    requires from <= next <= |s| && Lacks(s[from..next], sep)
    requires next < |s| ==> s[next] == sep
    requires from == next ==> next == |s|
    ensures from == next ==> Tokens(s[from..], sep) == []
    ensures from < next ==> Tokens(s[from..], sep) == [s[from..next]] + Tokens(s[next..], sep)
  {
    if from < next {
      assert s[from..] == s[from..next] + s[next..];
      FirstToken(s[from..next], s[next..], sep);
    }
  }

  /** One `strtok_r` call from `pos` on: skips separators, then takes characters up to the
      next one. */
  method NextToken(s: string, pos: nat, sep: char) returns (token: string, next: nat)
    requires pos <= |s|
    ensures pos <= next <= |s|
    ensures token == "" ==> Tokens(s[pos..], sep) == []
    ensures token != "" ==> pos < next && Tokens(s[pos..], sep) == [token] + Tokens(s[next..], sep)
  {
    var from := pos;
    while from < |s| && s[from] == sep
      invariant pos <= from <= |s|
      invariant Tokens(s[pos..], sep) == Tokens(s[from..], sep)
    {
      SkipSeparator(s, from, sep);
      from := from + 1;
    }
    next := from;
    while next < |s| && s[next] != sep
      invariant from <= next <= |s|
      invariant forall i :: from <= i < next ==> s[i] != sep
    {
      next := next + 1;
    }
    token := s[from..next];
    TokenAt(s, from, next, sep);
  }
}
