/** Exactly when minifying is transparent: the trouble with strings that end in a backslash. */
module JsonBackslash {
  import opened Texts
  import opened Json
  import opened Sequences
  import opened JsonRoundTrip
  import opened JsonMinify

  // ----- Strings that end in a backslash -----

  /** The texts first differ at `n`, where `x` has a layout character and `y` has not. */
  ghost predicate DifferAt(x: string, y: string, n: nat) {
    && n < |x| && n <= |y| && x[..n] == y[..n]
    && Layout4(x[n]) && (n < |y| ==> !Layout4(y[n]))
  }

  ghost predicate Differ(x: string, y: string) {
    exists n: nat :: DifferAt(x, y, n)
  }

  /** Nothing in `w` could end a string or look like an escape. */
  ghost predicate Quiet(w: string) {
    forall i :: 0 <= i < |w| ==> w[i] != '\"' && w[i] != '\\'
  }

  /** `s` has layout, before any quote, where `y` has none. */
  ghost predicate Lags(s: string, y: string) {
    exists n: nat :: DifferAt(s, y, n) && Quiet(s[..n])
  }

  lemma DifferBehind(p: string, x: string, y: string)
    requires Differ(x, y)
    ensures Differ(p + x, p + y)
  {
    var n: nat :| DifferAt(x, y, n);
    assert (p + x)[..|p| + n] == p + x[..n] && (p + y)[..|p| + n] == p + y[..n];
    assert DifferAt(p + x, p + y, |p| + n);
  }

  lemma LagsBehind(p: string, s: string, y: string)
    requires Quiet(p) && Lags(s, y)
    ensures Lags(p + s, p + y)
  {
    var n: nat :| DifferAt(s, y, n) && Quiet(s[..n]);
    assert (p + s)[..|p| + n] == p + s[..n] && (p + y)[..|p| + n] == p + y[..n];
    assert DifferAt(p + s, p + y, |p| + n);
  }

  lemma LagsHere(b: char, s: string, y: string)
    requires Layout4(b) && (y != "" ==> !Layout4(y[0]))
    ensures Lags([b] + s, y)
  {
    assert DifferAt([b] + s, y, 0);
  }

  lemma LoneBackslash(s: string)
    ensures StringEnd(['\\', '\\', '\"'] + s) == 3 + StringEnd(s)
  {
    var text := ['\\', '\\', '\"'] + s;
    assert text[1..][2..] == s;
  }

  /** The minifier does not see the closing quote of such a string. */
  lemma {:induction false} StringEndRunsOn(t: string, s: string)
    requires PlainText(t) && !Minifiable(t)
    ensures StringEnd(Escape(t) + ("\"" + s)) == |Escape(t)| + 1 + StringEnd(s)
    decreases |t|
  {
    if |t| == 1 {
      LoneBackslash(s);
      assert Escape(t) == EscapeChar('\\') + "" == ['\\', '\\'];
      assert Escape(t) + ("\"" + s) == ['\\', '\\', '\"'] + s;
    } else {
      var tail := Escape(t[1..]) + ("\"" + s);
      Regroup(EscapeChar(t[0]), Escape(t[1..]), "\"" + s);
      EscapeHead(t[1..]);
      StringEndChar(t[0], tail);
      StringEndRunsOn(t[1..], s);
    }
  }

  lemma {:induction false} QuietGoesOn(s: string, n: nat)
    requires n < |s| && Quiet(s[..n]) && Layout4(s[n])
    ensures StringEnd(s) > n
    decreases n
  {
    if n > 0 {
      assert s[1..][..n - 1] == s[..n][1..];
      QuietGoesOn(s[1..], n - 1);
    }
  }

  lemma QuoteRunsOn(t: string, s: string, y: string)
    requires PlainText(t) && !Minifiable(t) && Lags(s, y)
    ensures Differ(Minify(Quote(t) + s), Quote(t) + y)
  {
    var n: nat :| DifferAt(s, y, n) && Quiet(s[..n]);
    var body := Escape(t) + ("\"" + s);
    Regroup("\"", Escape(t) + "\"", s);
    Regroup(Escape(t), "\"", s);
    var text := "\"" + body;
    assert text == Quote(t) + s && text[1..] == body;
    StringEndRunsOn(t, s);
    QuietGoesOn(s, n);
    RunsInto(Quote(t), s, y, Minify(text), n);
  }

  lemma RunsInto(q: string, s: string, y: string, out: string, n: nat)
    requires DifferAt(s, y, n) && |out| > |q| + n && out[..|q| + n + 1] == (q + s)[..|q| + n + 1]
    ensures Differ(out, q + y)
  {
    var k := |q| + n;
    assert out[..k] == out[..k + 1][..k] && (q + s)[..k] == (q + s)[..k + 1][..k];
    assert (q + s)[..k] == q + s[..n] && (q + y)[..k] == q + y[..n];
    assert out[k] == out[..k + 1][k] == (q + s)[k];
    assert DifferAt(out, q + y, k);
  }

  /** A value with such a string keeps some layout that it should lose. */
  lemma {:induction false} RenderRunsOn(v: Json, depth: nat, s: string, y: string)
    requires Printable(v) && !AllMinifiable(v) && Lags(s, y)
    ensures Differ(Minify(Render(v, depth, true) + s), Render(v, depth, false) + y)
    decreases v, 1
  {
    match v
    case String(t) => QuoteRunsOn(t, s, y);
    case Array(items) =>
      var pretty, plain := RenderItems(items, depth, true), RenderItems(items, depth, false);
      Regroup("[", pretty + "]", s);
      Regroup(pretty, "]", s);
      MinifyOrdinary("[", pretty + ("]" + s));
      LagsBehind("]", s, y);
      ItemsRunOn(items, depth, "]" + s, "]" + y);
      DifferBehind("[", Minify(pretty + ("]" + s)), plain + ("]" + y));
      Regroup("[", plain + "]", y);
      Regroup(plain, "]", y);
    case Object(members) => ObjectRunsOn(members, depth, s, y);
  }

  lemma RestIsBad(items: seq<Json>)
    requires items != [] && Printable(Array(items)) && !AllMinifiable(Array(items))
    ensures Printable(items[0]) && Printable(Array(items[1..]))
    ensures AllMinifiable(items[0]) ==> items[1..] != [] && !AllMinifiable(Array(items[1..]))
  {
    if AllMinifiable(items[0]) {
      var i :| 0 <= i < |items| && !AllMinifiable(items[i]);
      assert items[1..][i - 1] == items[i];
    }
  }

  lemma {:induction false} ItemsRunOn(items: seq<Json>, depth: nat, s: string, y: string)
    requires Printable(Array(items)) && !AllMinifiable(Array(items)) && Lags(s, y)
    ensures Differ(Minify(RenderItems(items, depth, true) + s), RenderItems(items, depth, false) + y)
    decreases items, 0
  {
    RestIsBad(items);
    if |items| == 1 {
      ItemsText(items, depth, true, s);
      ItemsText(items, depth, false, y);
      RenderRunsOn(items[0], depth + 1, s, y);
    } else {
      var next, plain := RenderItems(items[1..], depth, true) + s, RenderItems(items[1..], depth, false) + y;
      ItemsHead(items[1..], depth, false, y);
      if AllMinifiable(items[0]) {
        ItemsRunOn(items[1..], depth, s, y);
        LaterRunsOn(items[0], depth + 1, " ", next, plain);
      } else {
        FirstRunsOn(items[0], depth + 1, next, plain);
      }
      MoreItemsText(items, depth, s, y, next, plain);
    }
  }

  lemma {:induction false} FirstRunsOn(v: Json, depth: nat, next: string, plain: string)
    requires Printable(v) && !AllMinifiable(v) && plain != "" && !Layout4(plain[0])
    ensures Differ(Minify(Render(v, depth, true) + ("," + (" " + next))), Render(v, depth, false) + ("," + plain))
    decreases v, 2
  {
    CommaLags(next, plain);
    RenderRunsOn(v, depth, "," + (" " + next), "," + plain);
  }

  lemma MoreItemsText(items: seq<Json>, depth: nat, s: string, y: string, next: string, plain: string)
    requires |items| > 1
    requires next == RenderItems(items[1..], depth, true) + s && plain == RenderItems(items[1..], depth, false) + y
    ensures RenderItems(items, depth, true) + s == Render(items[0], depth + 1, true) + ("," + (" " + next))
    ensures RenderItems(items, depth, false) + y == Render(items[0], depth + 1, false) + ("," + plain)
  {
    ItemsText(items, depth, true, s);
    ItemsText(items, depth, false, y);
    assert "" + plain == plain;
  }

  lemma CommaLags(next: string, plain: string)
    requires plain != "" && !Layout4(plain[0])
    ensures Lags("," + (" " + next), "," + plain)
  {
    LagsHere(' ', next, plain);
    LagsBehind(",", " " + next, plain);
  }

  lemma LaterRunsOn(v: Json, depth: nat, blank: string, next: string, plain: string)
    requires AllMinifiable(v) && Differ(Minify(next), plain)
    requires forall i :: 0 <= i < |blank| ==> Layout4(blank[i])
    ensures Differ(Minify(Render(v, depth, true) + ("," + (blank + next))), Render(v, depth, false) + ("," + plain))
  {
    LaterStays(v, depth, blank, next);
    DifferBehind(",", Minify(next), plain);
    DifferBehind(Render(v, depth, false), "," + Minify(next), "," + plain);
  }

  lemma {:induction false} ObjectRunsOn(members: seq<Member>, depth: nat, s: string, y: string)
    requires Printable(Object(members)) && !AllMinifiable(Object(members))
    ensures Differ(Minify(Render(Object(members), depth, true) + s), Render(Object(members), depth, false) + y)
    decreases members, 3
  {
    var end, close := Tabs(depth) + ("}" + s), "" + ("}" + y);
    var text, plain := MemberText(members, depth + 1, true) + end, MemberText(members, depth + 1, false) + close;
    MembersRunOn(members, depth + 1, end, close);
    OpenRunsOn("\n" + Tabs(depth + 1), text, plain);
    ObjectText(members, depth, true, s);
    assert Render(Object(members), depth, true) + s == "{" + ("\n" + Tabs(depth + 1) + text);
    ObjectText(members, depth, false, y);
    assert Render(Object(members), depth, false) + y == "{" + ("" + "" + plain);
  }

  lemma OpenRunsOn(blank: string, text: string, plain: string)
    requires (forall i :: 0 <= i < |blank| ==> Layout4(blank[i])) && Differ(Minify(text), plain)
    ensures Differ(Minify("{" + (blank + text)), "{" + ("" + "" + plain))
  {
    MinifyOpen(blank, text);
    assert "" + "" + Minify(text) == Minify(text) && "" + "" + plain == plain;
    DifferBehind("{", Minify(text), plain);
  }

  /** Behind every value of an object there is layout before the next quote. */
  lemma MoreMembersLag(members: seq<Member>, depth: nat, s: string, y: string)
    requires members != [] && y != "" && !Layout4(y[0])
    ensures Lags(RenderMoreMembers(members, depth, true) + s, RenderMoreMembers(members, depth, false) + y)
  {
    if |members| == 1 {
      MoreMembersText(members, depth, true, s);
      MoreMembersText(members, depth, false, y);
      assert "" + y == y;
      LagsHere('\n', s, y);
    } else {
      var next, plain := MemberText(members[1..], depth, true) + s, MemberText(members[1..], depth, false) + y;
      CommaText(members, depth, s, y, next, plain);
      Regroup("\n", Tabs(depth), next);
      LagsHere('\n', Tabs(depth) + next, plain);
      LagsBehind(",", "\n" + (Tabs(depth) + next), plain);
    }
  }

  lemma {:induction false} MembersRunOn(members: seq<Member>, depth: nat, s: string, y: string)
    requires members != [] && Printable(Object(members)) && !AllMinifiable(Object(members))
    requires y != "" && !Layout4(y[0])
    ensures Differ(Minify(MemberText(members, depth, true) + s), MemberText(members, depth, false) + y)
    decreases members, 2
  {
    var m := members[0];
    var more, rest := RenderMoreMembers(members, depth, true) + s, RenderMoreMembers(members, depth, false) + y;
    var value, plain := Render(m.value, depth, true) + more, Render(m.value, depth, false) + rest;
    MemberTextSplits(members, depth, true, s);
    MemberTextSplits(members, depth, false, y);
    assert "" + plain == plain;
    if !Minifiable(m.key) {
      RenderHead(m.value, depth, false);
      ColonLags(value, plain);
      QuoteRunsOn(m.key, ":" + ("\t" + value), ":" + plain);
    } else {
      ValueRunsOn(members, depth, s, y);
      LaterValueRunsOn(m.key, value, plain);
    }
  }

  lemma ColonLags(value: string, plain: string)
    requires plain != "" && !Layout4(plain[0])
    ensures Lags(":" + ("\t" + value), ":" + plain)
  {
    LagsHere('\t', value, plain);
    LagsBehind(":", "\t" + value, plain);
  }

  lemma LaterValueRunsOn(key: string, value: string, plain: string)
    requires Minifiable(key) && Differ(Minify(value), plain)
    ensures Differ(Minify(Quote(key) + (":" + ("\t" + value))), Quote(key) + (":" + plain))
  {
    MinifyQuote(key, ":" + ("\t" + value));
    MinifyOrdinary(":", "\t" + value);
    MinifyBlanks("\t", value);
    DifferBehind(":", Minify(value), plain);
    DifferBehind(Quote(key), ":" + Minify(value), ":" + plain);
  }

  lemma {:induction false} ValueRunsOn(members: seq<Member>, depth: nat, s: string, y: string)
    requires members != [] && Printable(Object(members)) && !AllMinifiable(Object(members))
    requires Minifiable(members[0].key) && y != "" && !Layout4(y[0])
    ensures Differ(Minify(Render(members[0].value, depth, true) + (RenderMoreMembers(members, depth, true) + s)),
                   Render(members[0].value, depth, false) + (RenderMoreMembers(members, depth, false) + y))
    decreases members, 1
  {
    var v := members[0].value;
    if !AllMinifiable(v) {
      MoreMembersLag(members, depth, s, y);
      RenderRunsOn(v, depth, RenderMoreMembers(members, depth, true) + s, RenderMoreMembers(members, depth, false) + y);
    } else {
      RestIsBadToo(members);
      var next, plain := MemberText(members[1..], depth, true) + s, MemberText(members[1..], depth, false) + y;
      CommaText(members, depth, s, y, next, plain);
      MembersRunOn(members[1..], depth, s, y);
      LaterRunsOn(v, depth, "\n" + Tabs(depth), next, plain);
    }
  }

  lemma CommaText(members: seq<Member>, depth: nat, s: string, y: string, next: string, plain: string)
    requires |members| > 1
    requires next == MemberText(members[1..], depth, true) + s && plain == MemberText(members[1..], depth, false) + y
    ensures RenderMoreMembers(members, depth, true) + s == "," + ("\n" + Tabs(depth) + next)
    ensures RenderMoreMembers(members, depth, false) + y == "," + plain
  {
    MoreMembersText(members, depth, true, s);
    MoreMembersText(members, depth, false, y);
    assert "" + "" + plain == plain;
  }

  lemma RestIsBadToo(members: seq<Member>)
    requires members != [] && Printable(Object(members)) && !AllMinifiable(Object(members))
    requires Minifiable(members[0].key) && AllMinifiable(members[0].value)
    ensures members[1..] != [] && Printable(Object(members[1..])) && !AllMinifiable(Object(members[1..]))
  {
    var i :| 0 <= i < |members| && !(Minifiable(members[i].key) && AllMinifiable(members[i].value));
    assert members[1..][i - 1] == members[i];
  }

  /** Minifying drops the layout of a printed value and nothing else, whatever follows it,
      exactly when no string in it ends in a backslash; one blank behind it is enough to
      tell. */
  lemma MinifyIsTransparentIff(v: Json)
    requires Printable(v)
    ensures (forall s :: Minify(Print(v) + s) == Render(v, 0, false) + Minify(s)) <==> AllMinifiable(v)
    ensures Minify(Print(v) + " ") == Render(v, 0, false) <==> AllMinifiable(v)
  {
    assert Minify(" ") == Minify(" "[1..]) == "";
    assert Render(v, 0, false) + "" == Render(v, 0, false);
    if AllMinifiable(v) {
      forall s ensures Minify(Print(v) + s) == Render(v, 0, false) + Minify(s) {
        MinifyRender(v, 0, s);
      }
    } else {
      LagsHere(' ', "", "");
      assert [' '] + "" == " ";
      RenderRunsOn(v, 0, " ", "");
      var n: nat :| DifferAt(Minify(Print(v) + " "), Render(v, 0, false) + "", n);
      assert Minify(Print(v) + " ") != Render(v, 0, false) + Minify(" ");
    }
  }

  /** The same for one quoted text. */
  lemma QuoteIsTransparentIff(t: string)
    requires PlainText(t)
    ensures (forall s :: Minify(Quote(t) + s) == Quote(t) + Minify(s)) <==> Minifiable(t)
  {
    MinifyIsTransparentIff(String(t));
  }

  // ----- The printed value with nothing behind it -----

  /** No string ends in a backslash, except perhaps the very last part of nested arrays,
      behind which only brackets follow. */
  predicate Transparent(v: Json) {
    match v
    case String(_) => true
    case Array(items) =>
      items != [] ==>
        && (forall i :: 0 <= i < |items| - 1 ==> AllMinifiable(items[i]))
        && Transparent(items[|items| - 1])
    case _ => AllMinifiable(v)
  }

  function Brackets(n: nat): (r: string)
    ensures |r| == n && forall i :: 0 <= i < n ==> r[i] == ']'
  {
    seq(n, _ => ']')
  }

  lemma {:induction false} NoQuoteRunsToEnd(s: string)
    requires Quiet(s)
    ensures StringEnd(s) == |s|
    decreases |s|
  {
    if s != "" {
      NoQuoteRunsToEnd(s[1..]);
    }
  }

  lemma LastStringStays(t: string, n: nat)
    requires PlainText(t)
    ensures Minify(Quote(t) + Brackets(n)) == Quote(t) + Brackets(n)
  {
    var c := Brackets(n);
    assert c + "" == c;
    MinifyOrdinary(c, "");
    if Minifiable(t) {
      MinifyQuote(t, c);
    } else {
      NoQuoteRunsToEnd(c);
      MinifyRunOn(t, c, "");
      assert Quote(t) + c + "" == Quote(t) + c;
    }
  }

  lemma DifferentTexts(x: string, y: string)
    requires Differ(x, y)
    ensures x != y
  {
  }

  lemma {:induction false} TransparentRender(v: Json, depth: nat, n: nat)
    requires Printable(v)
    ensures Minify(Render(v, depth, true) + Brackets(n)) == Render(v, depth, false) + Brackets(n) <==> Transparent(v)
    decreases v, 1
  {
    var c := Brackets(n);
    match v
    case String(t) => LastStringStays(t, n);
    case Array(items) =>
      var pretty, plain := RenderItems(items, depth, true), RenderItems(items, depth, false);
      assert "]" + c == Brackets(n + 1);
      Regroup("[", pretty + "]", c);
      Regroup(pretty, "]", c);
      Regroup("[", plain + "]", c);
      Regroup(plain, "]", c);
      MinifyOrdinary("[", pretty + Brackets(n + 1));
      TransparentItems(items, depth, n + 1);
      SameTail("[", Minify(pretty + Brackets(n + 1)), plain + Brackets(n + 1));
    case Object(members) =>
      if AllMinifiable(v) {
        MinifiableStays(v, depth, n);
      } else {
        ObjectRunsOn(members, depth, c, c);
        DifferentTexts(Minify(Render(v, depth, true) + c), Render(v, depth, false) + c);
      }
    case _ => MinifiableStays(v, depth, n);
  }

  lemma MinifiableStays(v: Json, depth: nat, n: nat)
    requires AllMinifiable(v)
    ensures Minify(Render(v, depth, true) + Brackets(n)) == Render(v, depth, false) + Brackets(n)
  {
    MinifyRender(v, depth, Brackets(n));
    assert Brackets(n) + "" == Brackets(n);
    MinifyOrdinary(Brackets(n), "");
  }

  lemma SameTail(p: string, x: string, y: string)
    ensures p + x == p + y <==> x == y
  {
    assert (p + x)[|p|..] == x && (p + y)[|p|..] == y;
  }

  lemma {:induction false} TransparentItems(items: seq<Json>, depth: nat, n: nat)
    requires Printable(Array(items))
    ensures Minify(RenderItems(items, depth, true) + Brackets(n)) == RenderItems(items, depth, false) + Brackets(n)
       <==> Transparent(Array(items))
    decreases items, 0
  {
    var c := Brackets(n);
    if items == [] {
      assert "" + c == c && c + "" == c;
      MinifyOrdinary(c, "");
    } else if |items| == 1 {
      ItemsText(items, depth, true, c);
      ItemsText(items, depth, false, c);
      TransparentRender(items[0], depth + 1, n);
    } else {
      var next, plain := RenderItems(items[1..], depth, true) + c, RenderItems(items[1..], depth, false) + c;
      MoreItemsText(items, depth, c, c, next, plain);
      TransparentRest(items);
      if AllMinifiable(items[0]) {
        TransparentItems(items[1..], depth, n);
        LaterStays(items[0], depth + 1, " ", next);
        SameTail(Render(items[0], depth + 1, false), "," + Minify(next), "," + plain);
        SameTail(",", Minify(next), plain);
      } else {
        ItemsHead(items[1..], depth, false, c);
        FirstRunsOn(items[0], depth + 1, next, plain);
        DifferentTexts(Minify(Render(items[0], depth + 1, true) + ("," + (" " + next))), Render(items[0], depth + 1, false) + ("," + plain));
      }
    }
  }

  lemma TransparentRest(items: seq<Json>)
    requires |items| > 1
    ensures Transparent(Array(items)) <==> AllMinifiable(items[0]) && Transparent(Array(items[1..]))
  {
    var rest := items[1..];
    assert rest[|rest| - 1] == items[|items| - 1];
    assert forall i :: 0 < i < |items| - 1 ==> items[i] == rest[i - 1];
    assert forall i :: 0 <= i < |rest| - 1 ==> rest[i] == items[i + 1];
  }

  lemma LaterStays(v: Json, depth: nat, blank: string, next: string)
    requires AllMinifiable(v) && forall i :: 0 <= i < |blank| ==> Layout4(blank[i])
    ensures Minify(Render(v, depth, true) + ("," + (blank + next))) == Render(v, depth, false) + ("," + Minify(next))
  {
    MinifyRender(v, depth, "," + (blank + next));
    MinifyOrdinary(",", blank + next);
    MinifyBlanks(blank, next);
  }

  /** Minifying what was printed gives the compact text exactly for these values. */
  lemma MinifiedIsCompactIff(v: Json)
    requires Printable(v)
    ensures Minify(Print(v)) == Render(v, 0, false) <==> Transparent(v)
  {
    TransparentRender(v, 0, 0);
    assert Print(v) + Brackets(0) == Print(v) && Render(v, 0, false) + Brackets(0) == Render(v, 0, false);
  }

  /** They come back from parsing without their signs, and unchanged exactly when there is
      no sign to lose. */
  lemma TransparentComesBack(v: Json)
    requires Printable(v) && Transparent(v)
    ensures ParseText(Minify(Print(v))) == Parsed(Unsigned(v), "")
    ensures ParseText(Minify(Print(v))) == Parsed(v, "") <==> Faithful(v)
  {
    MinifiedIsCompactIff(v);
    ParseCompact(v);
    UnsignedIff(v);
  }

  lemma PrintPair(a: Json, b: Json)
    ensures Print(Array([a, b])) == "[" + (Render(a, 1, true) + ("," + (" " + (Render(b, 1, true) + "]"))))
  {
    assert [a, b][1..] == [b];
    ItemsText([a, b], 0, true, "]");
    ItemsText([b], 0, true, "]");
  }

  /** For every text that ends in a backslash the minifier runs on into the next string and
      drops the blank in it. */
  lemma TrailingBackslashBreaksMinify(t: string)
    requires PlainText(t) && !Minifiable(t)
    ensures ParseText(Minify(Print(Array([String(t), String(" ")])))) == Parsed(Array([String(t), String("")]), "")
  {
    var close := ['\"', ']'];
    assert Escape(" ") == EscapeChar(' ') + Escape("") == " " && Escape("") + close == close;
    assert (" " + close)[1..] == close;
    ClosingStays();
    MinifiedPair(t, " ", close);
    PrintedPair(t, "");
    ParsePrint(Array([String(t), String("")]));
    PairUnsigned(t, "");
  }

  lemma GapEnds(gap: string, rest: string)
    requires gap == [',', ' ', '\"']
    ensures StringEnd(gap + rest) == |gap|
  {
    var s := gap + rest;
    assert StringEnd(s[2..]) == 1;
    assert s[1..][1..] == s[2..];
  }

  lemma MinifyRunOn(t: string, gap: string, rest: string)
    requires PlainText(t) && !Minifiable(t) && StringEnd(gap + rest) == |gap|
    ensures Minify(Quote(t) + (gap + rest)) == Quote(t) + gap + Minify(rest)
  {
    var body := Escape(t) + ("\"" + (gap + rest));
    var text := "\"" + body;
    Regroup("\"", Escape(t) + "\"", gap + rest);
    Regroup(Escape(t), "\"", gap + rest);
    assert text == Quote(t) + (gap + rest) && text[1..] == body;
    StringEndRunsOn(t, gap + rest);
    Regroup(Quote(t), gap, rest);
    var k := |Quote(t) + gap|;
    assert text[..k] == Quote(t) + gap && text[k..] == rest;
  }

  lemma ClosingStays()
    ensures Minify(['\"', ']']) == ['\"', ']']
  {
    assert Quote("") + Brackets(1) == ['\"'] + ['\"', ']'];
    assert ['\"', ']'][1..] == [']'] && [']'][1..] == "";
    assert StringEnd([']']) == 1;
  }

  lemma PrintedPair(t: string, u: string)
    ensures Print(Array([String(t), String(u)])) == "[" + (Quote(t) + ([',', ' ', '\"'] + (Escape(u) + ['\"', ']'])))
  {
    PrintPair(String(t), String(u));
    assert Quote(u) + "]" == ['\"'] + (Escape(u) + ['\"', ']']);
  }

  lemma MinifiedPair(t: string, u: string, w: string)
    requires PlainText(t) && !Minifiable(t) && w == Minify(Escape(u) + ['\"', ']'])
    ensures Minify(Print(Array([String(t), String(u)]))) == "[" + (Quote(t) + ([',', ' ', '\"'] + w))
  {
    var gap, rest := [',', ' ', '\"'], Escape(u) + ['\"', ']'];
    PrintedPair(t, u);
    MinifyOrdinary("[", Quote(t) + (gap + rest));
    GapEnds(gap, rest);
    MinifyRunOn(t, gap, rest);
    Regroup(Quote(t), gap, w);
  }

  lemma PairUnsigned(t: string, u: string)
    ensures Unsigned(Array([String(t), String(u)])) == Array([String(t), String(u)])
  {
    var pair := [String(t), String(u)];
    assert pair[1..] == [String(u)] && pair[1..][1..] == [];
    assert UnsignedItems(pair[1..]) == [String(u)];
    assert UnsignedItems(pair) == pair;
  }
}
