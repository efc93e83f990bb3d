/** Printing, then parsing, with or without minifying in between, gives the value back. */
module JsonRoundTrip {
  import opened Texts
  import opened Json
  import opened Sequences

  /** Characters that survive printing: ASCII from the blank on and the five named
      control characters, but not `%`, because printed text is used as a format string. */
  predicate PlainChar(c: char) {
    && c != '%'
    && (32 <= c as int < 128 || c as int == 8 || c as int == 12 || c == '\n' || c == '\r' || c == '\t')
  }

  predicate PlainText(s: string) {
    forall i :: 0 <= i < |s| ==> PlainChar(s[i])
  }

  /** Values of 32-bit numbers and plain texts. */
  predicate Printable(v: Json) {
    match v
    case Number(n) => -INT_LIMIT <= n < INT_LIMIT
    case String(s) => PlainText(s)
    case Array(items) => forall i :: 0 <= i < |items| ==> Printable(items[i])
    case Object(members) =>
      forall i :: 0 <= i < |members| ==> PlainText(members[i].key) && Printable(members[i].value)
    case _ => true
  }

  /** No number has a sign to lose; the least one survives because its magnitude wraps
      back to it. */
  predicate Faithful(v: Json) {
    match v
    case Number(n) => n >= 0 || n == -INT_LIMIT
    case Array(items) => forall i :: 0 <= i < |items| ==> Faithful(items[i])
    case Object(members) => forall i :: 0 <= i < |members| ==> Faithful(members[i].value)
    case _ => true
  }

  function Magnitude(n: int): nat {
    if n < 0 then -n else n
  }

  /** The value with every number replaced by its magnitude in 32 bits. */
  function Unsigned(v: Json): Json
    decreases v, 1
  {
    match v
    case Number(n) => Number(Wrap32(Magnitude(n)))
    case Array(items) => Array(UnsignedItems(items))
    case Object(members) => Object(UnsignedMembers(members))
    case _ => v
  }

  function UnsignedItems(items: seq<Json>): (r: seq<Json>)
    ensures |r| == |items|
    decreases items, 0
  {
    if items == [] then [] else [Unsigned(items[0])] + UnsignedItems(items[1..])
  }

  function UnsignedMember(m: Member): Member
    decreases m, 2
  {
    Member(m.key, Unsigned(m.value))
  }

  function UnsignedMembers(members: seq<Member>): (r: seq<Member>)
    ensures |r| == |members|
    decreases members, 0
  {
    if members == [] then [] else [UnsignedMember(members[0])] + UnsignedMembers(members[1..])
  }

  // ----- Lexical lemmas -----

  predicate AllBlank(s: string) {
    forall i :: 0 <= i < |s| ==> Blank(s[i])
  }

  lemma {:induction false} SkipBlanks(blank: string, s: string)
    requires AllBlank(blank) && s != "" && !Blank(s[0])
    ensures Skip(blank + s) == Parsed((), s)
    decreases |blank|
  {
    if blank == "" {
      assert blank + s == s;
    } else {
      assert (blank + s)[1..] == blank[1..] + s;
      SkipBlanks(blank[1..], s);
    }
  }

  lemma EscapeCharParses(c: char, s: string, out: string)
    requires PlainChar(c)
    ensures StringBody(EscapeChar(c) + s, out) == StringBody(s, out + [c])
  {
    var text := EscapeChar(c) + s;
    if |EscapeChar(c)| == 1 {
      assert text[1..] == s;
    } else {
      assert text[2..] == s && text[0] == '\\' && text[1] == EscapeChar(c)[1];
      assert Unescape(text[1]) == c;
    }
  }

  lemma {:induction false} EscapeParses(t: string, s: string, out: string)
    requires PlainText(t)
    ensures StringBody(Escape(t) + ("\"" + s), out) == Parsed(out + t, s)
    decreases |t|
  {
    if t == "" {
      assert Escape(t) + ("\"" + s) == "\"" + s && ("\"" + s)[1..] == s;
      assert out + t == out;
    } else {
      var tail := Escape(t[1..]) + ("\"" + s);
      Regroup(EscapeChar(t[0]), Escape(t[1..]), "\"" + s);
      EscapeCharParses(t[0], tail, out);
      EscapeParses(t[1..], s, out + [t[0]]);
      assert out + [t[0]] + t[1..] == out + t;
    }
  }

  lemma QuoteParses(t: string, s: string)
    requires PlainText(t)
    ensures ParseString(Quote(t) + s) == Parsed(t, s)
  {
    var body := Escape(t) + ("\"" + s);
    assert Quote(t) + s == "\"" + body;
    assert ("\"" + body)[1..] == body;
    EscapeParses(t, s, "");
    assert "" + t == t;
  }

  // ----- Numbers -----

  lemma DigitsParse(n: nat, s: string)
    requires n > 0 && Delimited(s)
    ensures ScanDigits(Decimal(n) + s, 0) == Parsed(n, s)
    ensures '1' <= (Decimal(n) + s)[0] <= '9'
  {
    DecimalValue(n);
    ScanFolds(Decimal(n), s, 0);
  }

  /** The sign of a number is printed but does not come back. */
  lemma NumberParses(n: int, s: string)
    requires Delimited(s)
    ensures ParseNumber(PrintNumber(n) + s) == Parsed(Number(Wrap32(Magnitude(n))), s)
  {
    if n == 0 {
      assert Decimal(0) + s == "0" + s && ("0" + s)[1..] == s;
    } else {
      DigitsParse(Magnitude(n), s);
      Regroup("-", Decimal(Magnitude(n)), s);
      assert ("-" + (Decimal(Magnitude(n)) + s))[1..] == Decimal(Magnitude(n)) + s;
    }
  }

  // ----- Values -----

  lemma RenderHead(v: Json, depth: nat, pretty: bool)
    requires Printable(v)
    ensures var r := Render(v, depth, pretty); r != "" && !Blank(r[0]) && r[0] != ']' && r[0] != '}'
  {
  }

  lemma NotAKeyword(s: string)
    requires s != "" && s[0] != 'n' && s[0] != 'f' && s[0] != 't'
    ensures !("null" <= s) && !("false" <= s) && !("true" <= s)
  {
  }

  lemma KeywordParses(v: Json, s: string)
    requires v.Null? || v.True? || v.False?
    ensures ParseValue(Render(v, 0, true) + s) == Parsed(v, s)
  {
    var text := Render(v, 0, true) + s;
    assert Render(v, 0, true) <= text;
    if v.Null? {
      assert text[4..] == s;
    } else if v.True? {
      assert text[0] == 't' && text[4..] == s;
      assert "null"[0] == 'n' && "false"[0] == 'f';
    } else {
      assert text[0] == 'f' && text[5..] == s;
      assert "null"[0] == 'n';
    }
  }

  /** Parsing reads back a rendered value and stops right behind it, in any layout. */
  lemma {:induction false} RoundTrip(v: Json, depth: nat, pretty: bool, s: string)
    requires Printable(v) && (v.Number? ==> Delimited(s))
    ensures ParseValue(Render(v, depth, pretty) + s) == Parsed(Unsigned(v), s)
    decreases v, 1
  {
    var text := Render(v, depth, pretty) + s;
    match v
    case Null => KeywordParses(v, s);
    case True => KeywordParses(v, s);
    case False => KeywordParses(v, s);
    case Number(n) =>
      assert text[0] == '-' || IsDigit(text[0]);
      NotAKeyword(text);
      NumberParses(n, s);
    case String(t) =>
      NotAKeyword(text);
      QuoteParses(t, s);
    case Array(items) => ArrayRoundTrip(items, depth, pretty, s);
    case Object(members) => ObjectRoundTrip(members, depth, pretty, s);
  }

  lemma {:induction false} ArrayOpens(next: string)
    requires next != "" && !Blank(next[0])
    ensures ParseValue("[" + next) == if next[0] == ']' then Parsed(Array([]), next[1..]) else ParseItems(next, [])
  {
    var s := "[" + next;
    assert s[0] == '[' && s[1..] == next;
    assert ParseValue(s) == ParseArray(s);
  }

  lemma {:induction false} ArrayRoundTrip(items: seq<Json>, depth: nat, pretty: bool, s: string)
    requires Printable(Array(items))
    ensures ParseValue(Render(Array(items), depth, pretty) + s) == Parsed(Array(UnsignedItems(items)), s)
    decreases items, 1
  {
    var inner := RenderItems(items, depth, pretty);
    Regroup("[", inner + "]", s);
    Regroup(inner, "]", s);
    if items == [] {
      assert inner + ("]" + s) == "]" + s;
      ArrayOpens("]" + s);
      assert ("]" + s)[1..] == s;
    } else {
      ItemsHead(items, depth, pretty, "]" + s);
      ArrayOpens(inner + ("]" + s));
      ItemsRoundTrip(items, depth, pretty, [], s);
      assert [] + UnsignedItems(items) == UnsignedItems(items);
    }
  }

  lemma ItemsEnd(s: string, v: Json, tail: string, done: seq<Json>)
    requires ParseValue(s) == Parsed(v, "]" + tail)
    ensures ParseItems(s, done) == Parsed(Array(done + [v]), tail)
  {
  }

  lemma ItemsGoOn(s: string, v: Json, blank: string, next: string, done: seq<Json>)
    requires AllBlank(blank) && next != "" && !Blank(next[0])
    requires ParseValue(s) == Parsed(v, "," + (blank + next))
    ensures ParseItems(s, done) == ParseItems(next, done + [v])
  {
    assert ("," + (blank + next))[1..] == blank + next;
    SkipBlanks(blank, next);
  }

  lemma ItemsText(items: seq<Json>, depth: nat, pretty: bool, end: string)
    requires items != []
    ensures RenderItems(items, depth, pretty) + end == Render(items[0], depth + 1, pretty) +
            if |items| == 1 then end else "," + (Layout(pretty, " ") + (RenderItems(items[1..], depth, pretty) + end))
  {
  }

  lemma ItemsHead(items: seq<Json>, depth: nat, pretty: bool, end: string)
    requires items != [] && Printable(Array(items))
    ensures var text := RenderItems(items, depth, pretty) + end; text != "" && !Blank(text[0]) && text[0] != ']'
  {
  }

  lemma {:induction false} ItemsRoundTrip(items: seq<Json>, depth: nat, pretty: bool, done: seq<Json>, s: string)
    requires items != [] && Printable(Array(items))
    ensures ParseItems(RenderItems(items, depth, pretty) + ("]" + s), done) == Parsed(Array(done + UnsignedItems(items)), s)
    decreases items, 0
  {
    var end := "]" + s;
    var text := RenderItems(items, depth, pretty) + end;
    ItemsText(items, depth, pretty, end);
    if |items| == 1 {
      RoundTrip(items[0], depth + 1, pretty, end);
      ItemsEnd(text, Unsigned(items[0]), s, done);
      assert UnsignedItems(items) == [Unsigned(items[0])];
    } else {
      var blank := Layout(pretty, " ");
      var next := RenderItems(items[1..], depth, pretty) + end;
      RoundTrip(items[0], depth + 1, pretty, "," + (blank + next));
      ItemsHead(items[1..], depth, pretty, end);
      ItemsGoOn(text, Unsigned(items[0]), blank, next, done);
      ItemsRoundTrip(items[1..], depth, pretty, done + [Unsigned(items[0])], s);
      Regroup(done, [Unsigned(items[0])], UnsignedItems(items[1..]));
    }
  }

  lemma ObjectOpens(blank: string, next: string)
    requires AllBlank(blank) && next != "" && !Blank(next[0])
    ensures ParseValue("{" + (blank + next)) ==
            if next[0] == '}' then Parsed(Object([]), next[1..]) else ParseMembers(next, [])
  {
    var text := "{" + (blank + next);
    NotAKeyword(text);
    assert text[1..] == blank + next;
    SkipBlanks(blank, next);
  }

  lemma {:induction false} ObjectRoundTrip(members: seq<Member>, depth: nat, pretty: bool, s: string)
    requires Printable(Object(members))
    ensures ParseValue(Render(Object(members), depth, pretty) + s) == Parsed(Object(UnsignedMembers(members)), s)
    decreases members, 3
  {
    var line, close := Layout(pretty, "\n"), Layout(pretty, Tabs(depth));
    if members == [] {
      EmptyObjectText(depth, pretty, s);
      ObjectOpens(line + close, "}" + s);
      assert ("}" + s)[1..] == s;
    } else {
      ObjectText(members, depth, pretty, s);
      ObjectOpens(line + Layout(pretty, Tabs(depth + 1)), MemberText(members, depth + 1, pretty) + (close + ("}" + s)));
      MembersRoundTrip(members, depth + 1, pretty, [], close, s);
      assert [] + UnsignedMembers(members) == UnsignedMembers(members);
    }
  }

  lemma EmptyObjectText(depth: nat, pretty: bool, s: string)
    ensures Render(Object([]), depth, pretty) + s == "{" + (Layout(pretty, "\n") + Layout(pretty, Tabs(depth)) + ("}" + s))
  {
  }

  lemma ObjectText(members: seq<Member>, depth: nat, pretty: bool, s: string)
    requires members != []
    ensures Render(Object(members), depth, pretty) + s ==
            "{" + (Layout(pretty, "\n") + Layout(pretty, Tabs(depth + 1)) +
            (MemberText(members, depth + 1, pretty) + (Layout(pretty, Tabs(depth)) + ("}" + s))))
  {
    var line, inner, first, close := Layout(pretty, "\n"), Layout(pretty, Tabs(depth + 1)), MemberText(members, depth + 1, pretty), Layout(pretty, Tabs(depth));
    Regroup(close, "}", s);
    Regroup(inner + first, close + "}", s);
    Regroup(line, inner + first + (close + "}"), s);
    Regroup("{", line + (inner + first + (close + "}")), s);
    Regroup(inner, first, close + ("}" + s));
    Regroup(line, inner, first + (close + ("}" + s)));
  }

  /** The rendering of a nonempty member list without its leading tabs. */
  function MemberText(members: seq<Member>, depth: nat, pretty: bool): string
    requires members != []
  {
    Quote(members[0].key) + (":" + (Layout(pretty, "\t") +
    (Render(members[0].value, depth, pretty) + RenderMoreMembers(members, depth, pretty))))
  }

  lemma MemberParses(key: string, blank: string, text: string, v: Json, after: string, s: string)
    requires PlainText(key) && AllBlank(blank) && AllBlank(after)
    requires text != "" && !Blank(text[0]) && s != "" && !Blank(s[0])
    requires ParseValue(text) == Parsed(v, after + s)
    ensures ParseMember(Quote(key) + (":" + (blank + text))) == Parsed(Member(key, v), s)
  {
    var colon := ":" + (blank + text);
    QuoteParses(key, colon);
    assert colon[1..] == blank + text;
    SkipBlanks(blank, text);
    SkipBlanks(after, s);
  }

  lemma MemberRoundTrip(m: Member, depth: nat, pretty: bool, blank: string, s: string)
    requires PlainText(m.key) && Printable(m.value)
    requires AllBlank(blank) && s != "" && !Blank(s[0]) && !IsDigit(s[0])
    requires ParseValue(Render(m.value, depth, pretty) + (blank + s)) == Parsed(Unsigned(m.value), blank + s)
    ensures ParseMember(Quote(m.key) + (":" + (Layout(pretty, "\t") + (Render(m.value, depth, pretty) + (blank + s))))) == Parsed(UnsignedMember(m), s)
  {
    RenderHead(m.value, depth, pretty);
    MemberParses(m.key, Layout(pretty, "\t"), Render(m.value, depth, pretty) + (blank + s), Unsigned(m.value), blank, s);
  }

  lemma MembersEnd(s: string, m: Member, tail: string, done: seq<Member>)
    requires ParseMember(s) == Parsed(m, "}" + tail)
    ensures ParseMembers(s, done) == Parsed(Object(done + [m]), tail)
  {
  }

  lemma MembersGoOn(s: string, m: Member, blank: string, next: string, done: seq<Member>)
    requires AllBlank(blank) && next != "" && !Blank(next[0])
    requires ParseMember(s) == Parsed(m, "," + (blank + next))
    ensures ParseMembers(s, done) == ParseMembers(next, done + [m])
  {
    assert ("," + (blank + next))[1..] == blank + next;
    SkipBlanks(blank, next);
  }

  lemma {:induction false} MembersRoundTrip(members: seq<Member>, depth: nat, pretty: bool, done: seq<Member>, close: string, s: string)
    requires members != [] && Printable(Object(members)) && AllBlank(close)
    ensures ParseMembers(MemberText(members, depth, pretty) + (close + ("}" + s)), done) == Parsed(Object(done + UnsignedMembers(members)), s)
    decreases members, 2
  {
    var end := close + ("}" + s);
    if |members| == 1 {
      LastMemberParses(members, depth, pretty, close, s);
      MembersEnd(MemberText(members, depth, pretty) + end, UnsignedMember(members[0]), s, done);
      assert UnsignedMembers(members) == [UnsignedMember(members[0])];
    } else {
      NextMemberGoesOn(members, depth, pretty, done, close, s);
      MembersRoundTrip(members[1..], depth, pretty, done + [UnsignedMember(members[0])], close, s);
      Regroup(done, [UnsignedMember(members[0])], UnsignedMembers(members[1..]));
    }
  }

  lemma {:induction false} NextMemberGoesOn(members: seq<Member>, depth: nat, pretty: bool, done: seq<Member>, close: string, s: string)
    requires |members| > 1 && Printable(Object(members))
    ensures var end := close + ("}" + s);
            ParseMembers(MemberText(members, depth, pretty) + end, done) ==
            ParseMembers(MemberText(members[1..], depth, pretty) + end, done + [UnsignedMember(members[0])])
    decreases members, 1
  {
    var end := close + ("}" + s);
    var layout := Layout(pretty, "\n") + Layout(pretty, Tabs(depth));
    NextMemberParses(members, depth, pretty, close, s);
    MembersGoOn(MemberText(members, depth, pretty) + end, UnsignedMember(members[0]), layout, MemberText(members[1..], depth, pretty) + end, done);
  }

  lemma {:induction false} LastMemberParses(members: seq<Member>, depth: nat, pretty: bool, close: string, s: string)
    requires |members| == 1 && Printable(Object(members)) && AllBlank(close)
    ensures ParseMember(MemberText(members, depth, pretty) + (close + ("}" + s))) == Parsed(UnsignedMember(members[0]), "}" + s)
    decreases members, 1
  {
    var blank := Layout(pretty, "\n") + close;
    FirstMemberText(members, depth, pretty, close, s);
    RoundTrip(members[0].value, depth, pretty, blank + ("}" + s));
    MemberRoundTrip(members[0], depth, pretty, blank, "}" + s);
  }

  lemma {:induction false} NextMemberParses(members: seq<Member>, depth: nat, pretty: bool, close: string, s: string)
    requires |members| > 1 && Printable(Object(members))
    ensures var end := close + ("}" + s);
            ParseMember(MemberText(members, depth, pretty) + end) ==
            Parsed(UnsignedMember(members[0]), "," + (Layout(pretty, "\n") + Layout(pretty, Tabs(depth)) + (MemberText(members[1..], depth, pretty) + end)))
    decreases members, 0
  {
    var end := close + ("}" + s);
    var next := "," + (Layout(pretty, "\n") + Layout(pretty, Tabs(depth)) + (MemberText(members[1..], depth, pretty) + end));
    FirstMemberText(members, depth, pretty, close, s);
    RoundTrip(members[0].value, depth, pretty, "" + next);
    MemberRoundTrip(members[0], depth, pretty, "", next);
  }

  /** What follows the first value of an object: its own blanks and the closing brace, or a comma. */
  lemma FirstMemberText(members: seq<Member>, depth: nat, pretty: bool, close: string, s: string)
    requires members != []
    ensures var end := close + ("}" + s);
            var line := Layout(pretty, "\n");
            MemberText(members, depth, pretty) + end ==
            Quote(members[0].key) + (":" + (Layout(pretty, "\t") + (Render(members[0].value, depth, pretty) +
            (if |members| == 1 then line + close + ("}" + s)
             else "" + ("," + (line + Layout(pretty, Tabs(depth)) + (MemberText(members[1..], depth, pretty) + end)))))))
  {
    var end := close + ("}" + s);
    MemberTextSplits(members, depth, pretty, end);
    MoreMembersText(members, depth, pretty, end);
    if |members| == 1 {
      Regroup(Layout(pretty, "\n"), close, "}" + s);
    } else {
      var more := "," + (Layout(pretty, "\n") + Layout(pretty, Tabs(depth)) + (MemberText(members[1..], depth, pretty) + end));
      assert "" + more == more;
    }
  }

  lemma MoreMembersText(members: seq<Member>, depth: nat, pretty: bool, end: string)
    requires members != []
    ensures RenderMoreMembers(members, depth, pretty) + end ==
            if |members| == 1 then Layout(pretty, "\n") + end
            else "," + (Layout(pretty, "\n") + Layout(pretty, Tabs(depth)) + (MemberText(members[1..], depth, pretty) + end))
  {
  }

  lemma MemberTextSplits(members: seq<Member>, depth: nat, pretty: bool, end: string)
    requires members != []
    ensures MemberText(members, depth, pretty) + end ==
            Quote(members[0].key) + (":" + (Layout(pretty, "\t") +
            (Render(members[0].value, depth, pretty) + (RenderMoreMembers(members, depth, pretty) + end))))
  {
    var tab, value, more := Layout(pretty, "\t"), Render(members[0].value, depth, pretty), RenderMoreMembers(members, depth, pretty);
    Regroup(value, more, end);
    Regroup(tab, value + more, end);
    Regroup(":", tab + (value + more), end);
    Regroup(Quote(members[0].key), ":" + (tab + (value + more)), end);
  }

  /** Parsing what was printed gives the value back without its signs. */
  lemma ParsePrint(v: Json)
    requires Printable(v)
    ensures ParseText(Print(v)) == Parsed(Unsigned(v), "")
  {
    RoundTrip(v, 0, true, "");
    assert Print(v) + "" == Print(v);
    RenderHead(v, 0, true);
    SkipBlanks("", Print(v));
    assert "" + Print(v) == Print(v);
  }

  lemma WrapsBackIff(n: int)
    requires -INT_LIMIT <= n < INT_LIMIT
    ensures Wrap32(Magnitude(n)) == n <==> n >= 0 || n == -INT_LIMIT
  {
  }

  lemma {:induction false} UnsignedIff(v: Json)
    requires Printable(v)
    ensures Unsigned(v) == v <==> Faithful(v)
    decreases v, 1
  {
    match v
    case Number(n) => WrapsBackIff(n);
    case Array(items) => UnsignedItemsIff(items);
    case Object(members) => UnsignedMembersIff(members);
    case _ =>
  }

  lemma {:induction false} UnsignedItemsIff(items: seq<Json>)
    requires Printable(Array(items))
    ensures UnsignedItems(items) == items <==> Faithful(Array(items))
    decreases items, 0
  {
    if items != [] {
      UnsignedIff(items[0]);
      UnsignedItemsIff(items[1..]);
      SameHead(Unsigned(items[0]), UnsignedItems(items[1..]), items);
      assert Faithful(Array(items)) <==> Faithful(items[0]) && Faithful(Array(items[1..])) by {
        assert forall i :: 0 < i < |items| ==> items[i] == items[1..][i - 1];
      }
    }
  }

  lemma {:induction false} UnsignedMembersIff(members: seq<Member>)
    requires Printable(Object(members))
    ensures UnsignedMembers(members) == members <==> Faithful(Object(members))
    decreases members, 0
  {
    if members != [] {
      UnsignedIff(members[0].value);
      UnsignedMembersIff(members[1..]);
      SameHead(UnsignedMember(members[0]), UnsignedMembers(members[1..]), members);
      assert Faithful(Object(members)) <==> Faithful(members[0].value) && Faithful(Object(members[1..])) by {
        assert forall i :: 0 < i < |members| ==> members[i] == members[1..][i - 1];
      }
    }
  }

  /** A value of 32-bit numbers survives printing and parsing exactly when no number in it
      has a sign to lose. */
  lemma RoundTripsIff(v: Json)
    requires Printable(v)
    ensures ParseText(Print(v)) == Parsed(v, "") <==> Faithful(v)
  {
    ParsePrint(v);
    UnsignedIff(v);
  }

  /** Minus one comes back as one, wherever it stands. */
  lemma MinusOneComesBackAsOne()
    ensures ParseText(Print(Array([Number(-1)]))) == Parsed(Array([Number(1)]), "")
  {
    ParsePrint(Array([Number(-1)]));
    assert [Number(-1)][1..] == [];
    assert UnsignedItems([Number(-1)]) == [Number(1)];
  }

  /** The layout of the printer: a tab per level, a tab behind the colon, a line per member,
      items on one line with a blank behind each comma. */
  lemma {:induction false} PrintedLayout(key: string, a: Json, b: Json)
    ensures Print(Object([Member(key, Array([a, b]))])) ==
            "{" + ("\n" + (("\t" + (Quote(key) + (":" + ("\t" + (PrintedPair(a, b) + "\n"))))) + "}"))
  {
    var members := [Member(key, Array([a, b]))];
    PairLayout(a, b);
    assert members[1..] == [];
    assert RenderMoreMembers(members, 1, true) == "\n";
    assert Tabs(1) == "\t" && Tabs(0) + "}" == "}";
    assert RenderMembers(members, 1, true) == "\t" + (Quote(key) + (":" + ("\t" + (PrintedPair(a, b) + "\n"))));
  }

  function PrintedPair(a: Json, b: Json): string {
    "[" + (Render(a, 2, true) + ("," + (" " + Render(b, 2, true))) + "]")
  }

  lemma {:induction false} PairLayout(a: Json, b: Json)
    ensures Render(Array([a, b]), 1, true) == PrintedPair(a, b)
  {
    var items := [a, b];
    assert items[1..] == [b];
    assert RenderItems([b], 1, true) == Render(b, 2, true);
    assert RenderItems(items, 1, true) == Render(a, 2, true) + ("," + (" " + Render(b, 2, true)));
  }
}
