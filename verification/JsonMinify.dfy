/** `cJSON_Minify`: the in-place minifier and what it does to printed text. */
module JsonMinify {
  import opened Texts
  import opened Json
  import opened Sequences
  import opened JsonRoundTrip

  // ----- What minifying computes -----

  predicate Layout4(c: char) {
    c == ' ' || c == '\t' || c == '\r' || c == '\n'
  }

  /** The text after a `//` comment. */
  function AfterLine(s: string): (r: string)
    ensures |r| <= |s|
  {
    if s == "" then "" else if s[0] == '\n' then s[1..] else AfterLine(s[1..])
  }

  /** The text after a block comment. */
  function AfterBlock(s: string): (r: string)
    ensures |r| <= |s|
  {
    if s == "" then ""
    else if s[0] == '*' && |s| > 1 && s[1] == '/' then s[2..]
    else AfterBlock(s[1..])
  }

  /** How many characters of `s`, taken from just after an opening quote, belong to
      the string: only a backslash right before a quote is seen as an escape. */
  function StringEnd(s: string): (k: nat)
    ensures k <= |s|
  {
    if s == "" then 0
    else if s[0] == '\"' then 1
    else if s[0] == '\\' && |s| > 1 && s[1] == '\"' then 2 + StringEnd(s[2..])
    else 1 + StringEnd(s[1..])
  }

  function Minify(s: string): (r: string)
    ensures |r| <= |s|
    decreases |s|
  {
    if s == "" then ""
    else if Layout4(s[0]) then Minify(s[1..])
    else if s[0] == '/' then
      if |s| > 1 && s[1] == '/' then Minify(AfterLine(s[2..]))
      else if |s| > 1 && s[1] == '*' then Minify(AfterBlock(s[2..]))
      else Minify(s[1..])
    else if s[0] == '\"' then
      var k := 1 + StringEnd(s[1..]);
      s[..k] + Minify(s[k..])
    else [s[0]] + Minify(s[1..])
  }

  /** Blanks, tabs and line ends outside strings go. */
  lemma LayoutVanishes(c: char, s: string)
    requires c as int == 32 || c as int == 9 || c as int == 13 || c as int == 10
    ensures Minify([c] + s) == Minify(s)
  {
    assert ([c] + s)[1..] == s;
  }

  lemma {:induction false} AfterLineSkips(body: string, s: string)
    requires forall i :: 0 <= i < |body| ==> body[i] as int != 10
    ensures AfterLine(body + ([10 as char] + s)) == s && AfterLine(body) == ""
    decreases |body|
  {
    if body == "" {
      assert body + ([10 as char] + s) == [10 as char] + s && ([10 as char] + s)[1..] == s;
    } else {
      assert (body + ([10 as char] + s))[1..] == body[1..] + ([10 as char] + s);
      AfterLineSkips(body[1..], s);
    }
  }

  /** A line comment goes with its line end; without one it takes the rest. */
  lemma LineCommentVanishes(body: string, s: string)
    requires forall i :: 0 <= i < |body| ==> body[i] as int != 10
    ensures Minify(['/', '/'] + (body + ([10 as char] + s))) == Minify(s) && Minify(['/', '/'] + body) == ""
  {
    AfterLineSkips(body, s);
    assert (['/', '/'] + (body + ([10 as char] + s)))[2..] == body + ([10 as char] + s) && (['/', '/'] + body)[2..] == body;
  }

  /** No `*` directly before a `/`, counting the end mark that follows. */
  predicate NoEnd(body: string) {
    forall i :: 0 <= i < |body| - 1 ==> !(body[i] == '*' && body[i + 1] == '/')
  }

  lemma {:induction false} AfterBlockSkips(body: string, s: string)
    requires NoEnd(body)
    ensures AfterBlock(body + (['*', '/'] + s)) == s && AfterBlock(body) == ""
    decreases |body|
  {
    var text := body + (['*', '/'] + s);
    if body == "" {
      assert text == ['*', '/'] + s && text[2..] == s;
    } else {
      assert text[1..] == body[1..] + (['*', '/'] + s);
      assert text[0] == body[0] && text[1] == if |body| > 1 then body[1] else '*';
      AfterBlockSkips(body[1..], s);
    }
  }

  /** A block comment goes; without an end it takes the rest. */
  lemma BlockCommentVanishes(body: string, s: string)
    requires NoEnd(body)
    ensures Minify(['/', '*'] + (body + (['*', '/'] + s))) == Minify(s) && Minify(['/', '*'] + body) == ""
  {
    AfterBlockSkips(body, s);
    assert (['/', '*'] + (body + (['*', '/'] + s)))[2..] == body + (['*', '/'] + s) && (['/', '*'] + body)[2..] == body;
  }

  /** Any other slash outside strings goes alone. */
  lemma LoneSlashVanishes(s: string)
    requires s == "" || (s[0] != '/' && s[0] != '*')
    ensures Minify(['/'] + s) == Minify(s)
  {
    assert (['/'] + s)[1..] == s;
  }

  // ----- The in-place code -----

  /** The buffer holds a C string of `n` characters that agrees with `text` from `k` on. */
  ghost predicate Holds(a: array<char>, text: string, k: nat)
    reads a
  {
    && |text| < a.Length && a[|text|] == '\0'
    && (forall i :: 0 <= i < |text| ==> a[i] != '\0')
    && (forall i {:trigger a[i]} :: k <= i < |text| ==> a[i] == text[i])
  }

  lemma AfterLineStep(text: string, j: nat)
    requires j < |text|
    ensures AfterLine(text[j..]) == if text[j] == '\n' then text[j + 1..] else AfterLine(text[j + 1..])
  {
  }

  method SkipLine(a: array<char>, ghost text: string, from: nat) returns (json: nat)
    requires Holds(a, text, from) && from + 2 <= |text|
    ensures from + 2 <= json <= |text| && text[json..] == AfterLine(text[from + 2..])
  {
    json := from + 2;
    while a[json] != '\0'
      invariant from + 2 <= json <= |text|
      invariant AfterLine(text[json..]) == AfterLine(text[from + 2..])
      decreases |text| - json
    {
      AfterLineStep(text, json);
      if a[json] == '\n' {
        json := json + 1;
        return;
      }
      json := json + 1;
    }
  }

  lemma AfterBlockStep(text: string, j: nat)
    requires j < |text|
    ensures AfterBlock(text[j..]) ==
            if text[j] == '*' && j + 1 < |text| && text[j + 1] == '/' then text[j + 2..] else AfterBlock(text[j + 1..])
  {
  }

  method SkipBlock(a: array<char>, ghost text: string, from: nat) returns (json: nat)
    requires Holds(a, text, from) && from + 2 <= |text|
    ensures from + 2 <= json <= |text| && text[json..] == AfterBlock(text[from + 2..])
  {
    json := from + 2;
    while a[json] != '\0'
      invariant from + 2 <= json <= |text|
      invariant AfterBlock(text[json..]) == AfterBlock(text[from + 2..])
      decreases |text| - json
    {
      AfterBlockStep(text, json);
      if a[json] == '*' && a[json + 1] == '/' {
        json := json + 2;
        return;
      }
      json := json + 1;
    }
  }

  /** The index where the string that holds position `j` of `text` ends. */
  function EndAt(text: string, j: nat): (k: nat)
    requires j <= |text|
    ensures j <= k <= |text|
    decreases |text| - j
  {
    if j == |text| then j
    else if text[j] == '\"' then j + 1
    else if text[j] == '\\' && j + 1 < |text| && text[j + 1] == '\"' then EndAt(text, j + 2)
    else EndAt(text, j + 1)
  }

  lemma {:induction false} EndAtIsStringEnd(text: string, j: nat)
    requires j <= |text|
    ensures EndAt(text, j) == j + StringEnd(text[j..])
    decreases |text| - j
  {
    if j < |text| {
      DropMore(text, j, 1);
      EndAtIsStringEnd(text, j + 1);
      if j + 1 < |text| {
        DropMore(text, j, 2);
        EndAtIsStringEnd(text, j + 2);
      }
    }
  }

  /** Writes `a[json..json + k]` at `into`, one or two characters at a time. */
  method CopyDown(a: array<char>, ghost text: string, json: nat, into: nat, k: nat)
    requires Holds(a, text, json) && into <= json && 1 <= k <= 2 && json + k <= |text|
    modifies a
    ensures Holds(a, text, json + k)
    ensures forall i :: 0 <= i < into ==> a[i] == old(a[i])
    ensures forall i :: into <= i < into + k ==> a[i] == text[i + (json - into)]
  {
    a[into] := a[json];
    if k == 2 {
      a[into + 1] := a[json + 1];
    }
  }

  /** Copies one string down the buffer; `from` is at its opening quote. */
  method MinifyString(a: array<char>, ghost text: string, from: nat, to: nat) returns (json: nat, into: nat)
    requires Holds(a, text, from) && to <= from < |text| && a[from] == '\"'
    modifies a
    ensures json == EndAt(text, from + 1) && into - to == json - from
    ensures Holds(a, text, json)
    ensures forall i :: 0 <= i < to ==> a[i] == old(a[i])
    ensures forall i :: to <= i < into ==> a[i] == text[i + (from - to)]
  {
    ghost var shift := from - to;
    CopyDown(a, text, from, to, 1);
    json, into := from + 1, to + 1;
    var closed := false;
    while a[json] != '\0' && !closed
      invariant from < json <= |text| && json - into == shift
      invariant Holds(a, text, json)
      invariant forall i :: 0 <= i < to ==> a[i] == old(a[i])
      invariant forall i :: to <= i < into ==> a[i] == text[i + shift]
      invariant EndAt(text, from + 1) == if closed then json else EndAt(text, json)
      decreases |text| - json
    {
      closed := a[json] == '\"';
      var k := if a[json] == '\\' && a[json + 1] == '\"' then 2 else 1;
      CopyDown(a, text, json, into, k);
      json, into := json + k, into + k;
    }
  }

  lemma MinifyStep(text: string, j: nat)
    requires j < |text|
    ensures Minify(text[j..]) ==
            if Layout4(text[j]) then Minify(text[j + 1..])
            else if text[j] == '/' then
              if j + 1 < |text| && text[j + 1] == '/' then Minify(AfterLine(text[j + 2..]))
              else if j + 1 < |text| && text[j + 1] == '*' then Minify(AfterBlock(text[j + 2..]))
              else Minify(text[j + 1..])
            else if text[j] == '\"' then
              text[j..EndAt(text, j + 1)] + Minify(text[EndAt(text, j + 1)..])
            else [text[j]] + Minify(text[j + 1..])
  {
    DropMore(text, j, 1);
    if j + 1 < |text| {
      DropMore(text, j, 2);
    }
    var end := EndAt(text, j + 1);
    EndAtIsStringEnd(text, j + 1);
    DropMore(text, j, end - j);
    assert text[j..][..end - j] == text[j..end];
  }

  /** One turn of the minifier's loop: skips blanks or a comment, or copies `piece` down. */
  method MinifyTurn(a: array<char>, ghost text: string, from: nat, to: nat)
    returns (json: nat, into: nat, ghost piece: string)
    requires Holds(a, text, from) && to <= from < |text|
    modifies a
    ensures from < json <= |text| && Holds(a, text, json)
    ensures to <= into == to + |piece| <= json
    ensures forall i :: 0 <= i < to ==> a[i] == old(a[i])
    ensures forall i :: to <= i < into ==> a[i] == piece[i - to]
    ensures Minify(text[from..]) == piece + Minify(text[json..])
  {
    MinifyStep(text, from);
    json, into, piece := from + 1, to, "";
    if Layout4(a[from]) {
    } else if a[from] == '/' {
      if a[from + 1] == '/' {
        json := SkipLine(a, text, from);
      } else if a[from + 1] == '*' {
        json := SkipBlock(a, text, from);
      }
    } else if a[from] == '\"' {
      json, into := MinifyString(a, text, from, to);
      piece := text[from..json];
    } else {
      CopyDown(a, text, from, to, 1);
      into, piece := to + 1, [text[from]];
    }
  }

  lemma NothingLeft(text: string, out: string)
    requires Minify(text) == out + Minify(text[|text|..])
    ensures Minify(text) == out
  {
  }

  /** Minifies the C string in the buffer and terminates the result. */
  method MinifyInPlace(a: array<char>, ghost text: string)
    requires Holds(a, text, 0)
    modifies a
    ensures Holds(a, Minify(text), 0)
  {
    var json, into := 0, 0;
    ghost var out, left := "", Minify(text);
    ghost var full := left;
    assert text[0..] == text;
    while a[json] != '\0'
      invariant 0 <= into == |out| <= json <= |text| && Holds(a, text, json)
      invariant forall i {:trigger a[i]} :: 0 <= i < into ==> a[i] == out[i]
      invariant full == out + left
      invariant left == Minify(text[json..])
      decreases |text| - json
    {
      ghost var piece;
      json, into, piece := MinifyTurn(a, text, json, into);
      Regroup(out, piece, Minify(text[json..]));
      out, left := out + piece, Minify(text[json..]);
    }
    NothingLeft(text, out);
    a[into] := '\0';
  }

  // ----- What minifying does to printed text -----

  /** A string that ends in a backslash would hide its closing quote from the minifier. */
  predicate Minifiable(s: string) {
    PlainText(s) && (s != "" ==> s[|s| - 1] != '\\')
  }

  predicate AllMinifiable(v: Json) {
    match v
    case Number(n) => -INT_LIMIT <= n < INT_LIMIT
    case String(s) => Minifiable(s)
    case Array(items) => forall i :: 0 <= i < |items| ==> AllMinifiable(items[i])
    case Object(members) =>
      forall i :: 0 <= i < |members| ==> Minifiable(members[i].key) && AllMinifiable(members[i].value)
    case _ => true
  }

  lemma {:induction false} MinifiableIsPrintable(v: Json)
    requires AllMinifiable(v)
    ensures Printable(v)
  {
    match v
    case Array(items) =>
      forall i | 0 <= i < |items| ensures Printable(items[i]) {
        MinifiableIsPrintable(items[i]);
      }
    case Object(members) =>
      forall i | 0 <= i < |members| ensures PlainText(members[i].key) && Printable(members[i].value) {
        MinifiableIsPrintable(members[i].value);
      }
    case _ =>
  }

  lemma {:induction false} MinifyBlanks(blank: string, s: string)
    requires forall i :: 0 <= i < |blank| ==> Layout4(blank[i])
    ensures Minify(blank + s) == Minify(s)
    decreases |blank|
  {
    if blank == "" {
      assert blank + s == s;
    } else {
      assert (blank + s)[1..] == blank[1..] + s;
      MinifyBlanks(blank[1..], s);
    }
  }

  predicate Ordinary(c: char) {
    !Layout4(c) && c != '/' && c != '\"'
  }

  lemma {:induction false} MinifyOrdinary(t: string, s: string)
    requires forall i :: 0 <= i < |t| ==> Ordinary(t[i])
    ensures Minify(t + s) == t + Minify(s)
    decreases |t|
  {
    if t == "" {
      assert t + s == s && t + Minify(s) == Minify(s);
    } else {
      assert (t + s)[1..] == t[1..] + s;
      MinifyOrdinary(t[1..], s);
      Regroup([t[0]], t[1..], Minify(s));
      assert [t[0]] + t[1..] == t;
    }
  }

  lemma {:induction false} StringEndChar(c: char, s: string)
    requires PlainChar(c) && s != "" && (c == '\\' ==> s[0] != '\"')
    ensures StringEnd(EscapeChar(c) + s) == |EscapeChar(c)| + StringEnd(s)
  {
  }

  lemma EscapeHead(t: string)
    requires t != "" && PlainText(t)
    ensures Escape(t) != "" && Escape(t)[0] != '\"'
  {
  }

  lemma {:induction false} StringEndEscape(t: string, s: string)
    requires Minifiable(t)
    ensures StringEnd(Escape(t) + ("\"" + s)) == |Escape(t)| + 1
    decreases |t|
  {
    if t == "" {
      assert Escape(t) + ("\"" + s) == "\"" + s;
    } else {
      var tail := Escape(t[1..]) + ("\"" + s);
      Regroup(EscapeChar(t[0]), Escape(t[1..]), "\"" + s);
      if t[1..] != "" {
        EscapeHead(t[1..]);
      }
      StringEndChar(t[0], tail);
      StringEndEscape(t[1..], s);
    }
  }

  lemma MinifyQuote(t: string, s: string)
    requires Minifiable(t)
    ensures Minify(Quote(t) + s) == Quote(t) + Minify(s)
  {
    var body := Escape(t) + ("\"" + s);
    var text := "\"" + body;
    Regroup("\"", Escape(t) + "\"", s);
    Regroup(Escape(t), "\"", s);
    assert text[1..] == body;
    StringEndEscape(t, s);
    var k := |Quote(t)|;
    assert text == Quote(t) + s && text[..k] == Quote(t) && text[k..] == s;
  }

  /** Minifying drops exactly the layout of a rendered value. */
  lemma {:induction false} MinifyRender(v: Json, depth: nat, s: string)
    requires AllMinifiable(v)
    ensures Minify(Render(v, depth, true) + s) == Render(v, depth, false) + Minify(s)
    decreases v, 1
  {
    match v
    case Null => MinifyOrdinary("null", s);
    case True => MinifyOrdinary("true", s);
    case False => MinifyOrdinary("false", s);
    case Number(n) => MinifyOrdinary(PrintNumber(n), s);
    case String(t) => MinifyQuote(t, s);
    case Array(items) =>
      var pretty, plain := RenderItems(items, depth, true), RenderItems(items, depth, false);
      Regroup("[", pretty + "]", s);
      Regroup(pretty, "]", s);
      MinifyOrdinary("[", pretty + ("]" + s));
      MinifyItems(items, depth, "]" + s);
      MinifyOrdinary("]", s);
      Regroup("[", plain + "]", Minify(s));
      Regroup(plain, "]", Minify(s));
    case Object(members) => MinifyObject(members, depth, s);
  }

  lemma {:induction false} MinifyItems(items: seq<Json>, depth: nat, s: string)
    requires AllMinifiable(Array(items))
    ensures Minify(RenderItems(items, depth, true) + s) == RenderItems(items, depth, false) + Minify(s)
    decreases items, 0
  {
    if items == [] {
      assert "" + s == s && "" + Minify(s) == Minify(s);
    } else {
      ItemsText(items, depth, true, s);
      ItemsText(items, depth, false, Minify(s));
      if |items| == 1 {
        MinifyRender(items[0], depth + 1, s);
      } else {
        var next := RenderItems(items[1..], depth, true) + s;
        MinifyRender(items[0], depth + 1, "," + (" " + next));
        MinifyOrdinary(",", " " + next);
        MinifyBlanks(" ", next);
        MinifyItems(items[1..], depth, s);
        assert "" + (RenderItems(items[1..], depth, false) + Minify(s)) == RenderItems(items[1..], depth, false) + Minify(s);
      }
    }
  }

  lemma MinifyOpen(blank: string, next: string)
    requires forall i :: 0 <= i < |blank| ==> Layout4(blank[i])
    ensures Minify("{" + (blank + next)) == "{" + ("" + "" + Minify(next))
  {
    MinifyOrdinary("{", blank + next);
    MinifyBlanks(blank, next);
    assert "" + "" + Minify(next) == Minify(next);
  }

  lemma MinifyClose(depth: nat, s: string)
    ensures Minify(Tabs(depth) + ("}" + s)) == "" + ("}" + Minify(s))
  {
    MinifyBlanks(Tabs(depth), "}" + s);
    MinifyOrdinary("}", s);
    assert "" + ("}" + Minify(s)) == "}" + Minify(s);
  }

  lemma {:induction false} MinifyObject(members: seq<Member>, depth: nat, s: string)
    requires AllMinifiable(Object(members))
    ensures Minify(Render(Object(members), depth, true) + s) == Render(Object(members), depth, false) + Minify(s)
    decreases members, 3
  {
    if members == [] {
      EmptyObjectText(depth, true, s);
      EmptyObjectText(depth, false, Minify(s));
      MinifyOpen("\n" + Tabs(depth), "}" + s);
      MinifyOrdinary("}", s);
    } else {
      var end := Tabs(depth) + ("}" + s);
      ObjectText(members, depth, true, s);
      ObjectText(members, depth, false, Minify(s));
      MinifyOpen("\n" + Tabs(depth + 1), MemberText(members, depth + 1, true) + end);
      MinifyMembers(members, depth + 1, end);
      MinifyClose(depth, s);
    }
  }

  lemma {:induction false} MinifyMembers(members: seq<Member>, depth: nat, s: string)
    requires members != [] && AllMinifiable(Object(members))
    ensures Minify(MemberText(members, depth, true) + s) == MemberText(members, depth, false) + Minify(s)
    decreases members, 2
  {
    var m := members[0];
    var more := RenderMoreMembers(members, depth, true) + s;
    var value := Render(m.value, depth, true) + more;
    MemberTextSplits(members, depth, true, s);
    MemberTextSplits(members, depth, false, Minify(s));
    MinifyQuote(m.key, ":" + ("\t" + value));
    MinifyOrdinary(":", "\t" + value);
    MinifyBlanks("\t", value);
    MinifyRender(m.value, depth, more);
    MinifyMoreMembers(members, depth, s);
    var plain := Render(m.value, depth, false) + (RenderMoreMembers(members, depth, false) + Minify(s));
    assert "" + plain == plain;
  }

  lemma {:induction false} MinifyMoreMembers(members: seq<Member>, depth: nat, s: string)
    requires members != [] && AllMinifiable(Object(members))
    ensures Minify(RenderMoreMembers(members, depth, true) + s) == RenderMoreMembers(members, depth, false) + Minify(s)
    decreases members, 1
  {
    MoreMembersText(members, depth, true, s);
    MoreMembersText(members, depth, false, Minify(s));
    if |members| == 1 {
      MinifyBlanks("\n", s);
      assert "" + Minify(s) == Minify(s);
    } else {
      var open := "\n" + Tabs(depth);
      var next := MemberText(members[1..], depth, true) + s;
      MinifyOrdinary(",", open + next);
      MinifyBlanks(open, next);
      MinifyMembers(members[1..], depth, s);
      var plain := MemberText(members[1..], depth, false) + Minify(s);
      assert "" + "" + plain == plain;
    }
  }

  lemma ParseCompact(v: Json)
    requires Printable(v)
    ensures ParseText(Render(v, 0, false)) == Parsed(Unsigned(v), "")
  {
    var text := Render(v, 0, false);
    assert text + "" == text;
    RoundTrip(v, 0, false, "");
    RenderHead(v, 0, false);
    SkipBlanks("", text);
    assert "" + text == text;
  }

  /** Parsing what was printed and then minified gives the value back without its signs,
      and so the very value exactly when no number has a sign to lose. */
  lemma ParseMinifyPrint(v: Json)
    requires AllMinifiable(v)
    ensures ParseText(Minify(Print(v))) == Parsed(Unsigned(v), "")
    ensures ParseText(Minify(Print(v))) == Parsed(v, "") <==> Faithful(v)
  {
    MinifyRender(v, 0, "");
    assert Print(v) + "" == Print(v) && Render(v, 0, false) + "" == Render(v, 0, false);
    MinifiableIsPrintable(v);
    ParseCompact(v);
    UnsignedIff(v);
  }
}
