/** Exactly which values survive printing, minifying and parsing. */
module JsonSurvival {
  import opened Types
  import opened Texts
  import opened Json
  import opened Sequences
  import opened JsonRoundTrip
  import opened JsonMinify
  import opened JsonBackslash

  // ----- Following the minifier through the strings of a value -----

  predicate EndsInBackslash(t: string) {
    t != "" && t[|t| - 1] == '\\'
  }

  predicate HasQuote(t: string) {
    t != "" && (t[0] == '\"' || HasQuote(t[1..]))
  }

  /** Some blank or slash stands before the first quote. */
  predicate Exposed(t: string) {
    t != "" && t[0] != '\"' && (t[0] == ' ' || t[0] == '/' || Exposed(t[1..]))
  }

  /** One string. `astray`: an earlier string ran away, so the minifier takes what is between
      strings for a string and the strings for bare text. None if it then eats some of the
      string, else whether it is astray behind it. */
  function WalkText(t: string, astray: bool): Option<bool> {
    if !astray then Some(EndsInBackslash(t))
    else if Exposed(t) then None
    else Some(HasQuote(t) ==> EndsInBackslash(t))
  }

  function Walk(v: Json, astray: bool): Option<bool>
    decreases v, 1
  {
    match v
    case String(t) => WalkText(t, astray)
    case Array(items) => WalkItems(items, astray)
    case Object(members) => WalkMembers(members, astray)
    case _ => Some(astray)
  }

  function WalkItems(items: seq<Json>, astray: bool): Option<bool>
    decreases items, 0
  {
    if items == [] then Some(astray)
    else match Walk(items[0], astray)
      case None => None
      case Some(next) => WalkItems(items[1..], next)
  }

  function WalkMembers(members: seq<Member>, astray: bool): Option<bool>
    decreases members, 0
  {
    if members == [] then Some(astray)
    else match WalkText(members[0].key, astray)
      case None => None
      case Some(behindKey) =>
        match Walk(members[0].value, behindKey)
        case None => None
        case Some(next) => WalkMembers(members[1..], next)
  }

  // ----- Minifying from inside or outside a string -----

  /** What the minifier makes of `s` when it is astray at its start, or not. */
  function Min(s: string, astray: bool): string {
    if astray then s[..StringEnd(s)] + Minify(s[StringEnd(s)..]) else Minify(s)
  }

  predicate Bare(p: string) {
    forall i :: 0 <= i < |p| ==> Ordinary(p[i]) && p[i] != '\\'
  }

  lemma {:induction false} QuietEnd(p: string, s: string)
    requires Quiet(p)
    ensures StringEnd(p + s) == |p| + StringEnd(s)
    decreases |p|
  {
    if p == "" {
      assert p + s == s;
    } else {
      assert (p + s)[1..] == p[1..] + s;
      QuietEnd(p[1..], s);
    }
  }

  lemma MinQuiet(p: string, s: string)
    requires Quiet(p)
    ensures Min(p + s, true) == p + Min(s, true)
  {
    QuietEnd(p, s);
    var k := StringEnd(s);
    assert (p + s)[..|p| + k] == p + s[..k] && (p + s)[|p| + k..] == s[k..];
    Regroup(p, s[..k], Minify(s[k..]));
  }

  lemma MinBare(p: string, s: string, astray: bool)
    requires Bare(p)
    ensures Min(p + s, astray) == p + Min(s, astray)
  {
    if astray {
      MinQuiet(p, s);
    } else {
      MinifyOrdinary(p, s);
    }
  }

  function Left(blank: string, astray: bool): string {
    if astray then blank else ""
  }

  lemma MinBlank(blank: string, s: string, astray: bool)
    requires forall i :: 0 <= i < |blank| ==> Layout4(blank[i])
    ensures Min(blank + s, astray) == Left(blank, astray) + Min(s, astray) && AllBlank(Left(blank, astray))
  {
    if astray {
      MinQuiet(blank, s);
    } else {
      MinifyBlanks(blank, s);
      assert "" + Minify(s) == Minify(s);
    }
  }

  lemma MinHead(s: string, astray: bool)
    requires s != "" && !Layout4(s[0]) && s[0] != '/'
    ensures Min(s, astray) != "" && Min(s, astray)[0] == s[0]
  {
  }

  /** A string read from its opening quote on. */
  lemma MinQuoteStraight(t: string, s: string)
    requires PlainText(t)
    ensures Minify(Quote(t) + s) == Quote(t) + Min(s, EndsInBackslash(t))
  {
    if EndsInBackslash(t) {
      var k := StringEnd(s);
      assert s == s[..k] + s[k..];
      StringEndAgain(s);
      MinifyRunOn(t, s[..k], s[k..]);
      Regroup(Quote(t), s[..k], Minify(s[k..]));
    } else {
      MinifyQuote(t, s);
    }
  }

  lemma StringEndAgain(s: string)
    ensures StringEnd(s[..StringEnd(s)] + s[StringEnd(s)..]) == |s[..StringEnd(s)]|
  {
    assert s[..StringEnd(s)] + s[StringEnd(s)..] == s;
  }

  /** A string read as bare text up to its first quote. */
  lemma {:induction false} MinTextAstray(t: string, s: string)
    requires PlainText(t) && !Exposed(t)
    ensures Minify(Escape(t) + ("\"" + s)) == Escape(t) + ("\"" + Min(s, HasQuote(t) ==> EndsInBackslash(t)))
    decreases |t|
  {
    if t == "" {
      OpeningQuote(s);
      assert Escape(t) + ("\"" + s) == "\"" + s && Escape(t) + ("\"" + Min(s, true)) == "\"" + Min(s, true);
    } else {
      var end := HasQuote(t) ==> EndsInBackslash(t);
      var rest := Escape(t[1..]) + ("\"" + s);
      Regroup(EscapeChar(t[0]), Escape(t[1..]), "\"" + s);
      Regroup(EscapeChar(t[0]), Escape(t[1..]), "\"" + Min(s, end));
      if t[0] == '\"' {
        QuoteInside(t[1..], s);
      } else {
        MinTextAstray(t[1..], s);
        MinifyOrdinary(EscapeChar(t[0]), rest);
        assert t[1..] != "" ==> EndsInBackslash(t[1..]) == EndsInBackslash(t);
      }
    }
  }

  lemma OpeningQuote(s: string)
    ensures Minify("\"" + s) == "\"" + Min(s, true)
  {
    var text, k := "\"" + s, StringEnd(s);
    assert text[1..] == s && text[..1 + k] == "\"" + s[..k] && text[1 + k..] == s[k..];
    Regroup("\"", s[..k], Minify(s[k..]));
  }

  lemma QuoteInside(t: string, s: string)
    requires PlainText(t)
    ensures Minify("\\\"" + (Escape(t) + ("\"" + s))) == "\\\"" + (Escape(t) + ("\"" + Min(s, EndsInBackslash(t))))
  {
    var end := Min(s, EndsInBackslash(t));
    assert "\\\"" + (Escape(t) + ("\"" + s)) == ['\\'] + (Quote(t) + s);
    assert "\\\"" + (Escape(t) + ("\"" + end)) == ['\\'] + (Quote(t) + end);
    MinifyOrdinary(['\\'], Quote(t) + s);
    MinQuoteStraight(t, s);
  }

  lemma MinQuote(t: string, s: string, astray: bool)
    requires PlainText(t) && WalkText(t, astray).Some?
    ensures Min(Quote(t) + s, astray) == Quote(t) + Min(s, WalkText(t, astray).value)
  {
    if astray {
      ClosedByNext(t, s);
      MinTextAstray(t, s);
      var end := Min(s, WalkText(t, astray).value);
      assert Quote(t) + end == "\"" + (Escape(t) + ("\"" + end));
    } else {
      MinQuoteStraight(t, s);
    }
  }

  /** The opening quote ends what the minifier took for a string. */
  lemma ClosedByNext(t: string, s: string)
    ensures Min(Quote(t) + s, true) == "\"" + Minify(Escape(t) + ("\"" + s))
  {
    var body := Escape(t) + ("\"" + s);
    assert Quote(t) + s == "\"" + body;
    assert ("\"" + body)[..1] == "\"" && ("\"" + body)[1..] == body;
  }

  // ----- Values that come back -----

  lemma HeadIsPlain(v: Json, depth: nat)
    requires Printable(v)
    ensures var r := Render(v, depth, true); r != "" && !Layout4(r[0]) && !Blank(r[0]) && r[0] != '/' && r[0] != ']' && r[0] != '}'
  {
    RenderHead(v, depth, true);
  }

  lemma ValueHead(v: Json, depth: nat, s: string, astray: bool)
    requires Printable(v)
    ensures var r := Min(Render(v, depth, true) + s, astray); r != "" && !Blank(r[0]) && r[0] != ']' && r[0] != '}'
  {
    HeadIsPlain(v, depth);
    MinHead(Render(v, depth, true) + s, astray);
  }

  lemma ItemsHeadMin(items: seq<Json>, depth: nat, s: string, astray: bool)
    requires items != [] && Printable(Array(items))
    ensures var r := Min(RenderItems(items, depth, true) + s, astray); r != "" && !Blank(r[0]) && r[0] != ']'
  {
    var more := RenderMoreItems(items, depth, true) + s;
    Regroup(Render(items[0], depth + 1, true), RenderMoreItems(items, depth, true), s);
    ValueHead(items[0], depth + 1, more, astray);
  }

  lemma LeafBack(v: Json, depth: nat, astray: bool, s: string)
    requires Printable(v) && !v.String? && !v.Array? && !v.Object? && (v.Number? ==> Delimited(Min(s, astray)))
    ensures ParseValue(Min(Render(v, depth, true) + s, astray)) == Parsed(Unsigned(v), Min(s, astray))
  {
    MinBare(Render(v, depth, true), s, astray);
    RoundTrip(v, depth, true, Min(s, astray));
  }

  /** If the minifier eats nothing of a value, the value parses back from what is left. */
  lemma {:induction false} ValueBack(v: Json, depth: nat, astray: bool, s: string)
    requires Printable(v) && Walk(v, astray).Some? && (v.Number? ==> Delimited(Min(s, astray)))
    ensures ParseValue(Min(Render(v, depth, true) + s, astray)) == Parsed(Unsigned(v), Min(s, Walk(v, astray).value))
    decreases v, 1
  {
    match v
    case String(t) =>
      MinQuote(t, s, astray);
      RoundTrip(v, depth, true, Min(s, WalkText(t, astray).value));
    case Array(items) => ArrayBack(items, depth, astray, s);
    case Object(members) => ObjectBack(members, depth, astray, s);
    case _ => LeafBack(v, depth, astray, s);
  }

  lemma ArrayText(items: seq<Json>, depth: nat, astray: bool, s: string)
    ensures Min(Render(Array(items), depth, true) + s, astray) == "[" + Min(RenderItems(items, depth, true) + ("]" + s), astray)
  {
    var inner := RenderItems(items, depth, true);
    Regroup("[", inner + "]", s);
    Regroup(inner, "]", s);
    MinBare("[", inner + ("]" + s), astray);
  }

  lemma {:induction false} ArrayBack(items: seq<Json>, depth: nat, astray: bool, s: string)
    requires Printable(Array(items)) && WalkItems(items, astray).Some?
    ensures ParseValue(Min(Render(Array(items), depth, true) + s, astray))
         == Parsed(Array(UnsignedItems(items)), Min(s, WalkItems(items, astray).value))
    decreases items, 1
  {
    ArrayText(items, depth, astray, s);
    if items == [] {
      assert "" + ("]" + s) == "]" + s;
      MinBare("]", s, astray);
      ArrayOpens("]" + Min(s, astray));
      assert ("]" + Min(s, astray))[1..] == Min(s, astray);
    } else {
      ItemsHeadMin(items, depth, "]" + s, astray);
      ArrayOpens(Min(RenderItems(items, depth, true) + ("]" + s), astray));
      ItemsBack(items, depth, astray, [], s);
      assert [] + UnsignedItems(items) == UnsignedItems(items);
    }
  }

  /** The first of several items, and what the minifier leaves behind it. */
  lemma FirstItemText(items: seq<Json>, depth: nat, astray: bool, s: string)
    requires |items| > 1
    ensures var next := RenderItems(items[1..], depth, true) + s;
            && RenderItems(items, depth, true) + s == Render(items[0], depth + 1, true) + ("," + (" " + next))
            && Min("," + (" " + next), astray) == "," + (Left(" ", astray) + Min(next, astray))
            && AllBlank(Left(" ", astray))
  {
    var next := RenderItems(items[1..], depth, true) + s;
    ItemsText(items, depth, true, s);
    MinBare(",", " " + next, astray);
    MinBlank(" ", next, astray);
  }

  lemma {:induction false} ItemsBack(items: seq<Json>, depth: nat, astray: bool, done: seq<Json>, s: string)
    requires items != [] && Printable(Array(items)) && WalkItems(items, astray).Some?
    ensures ParseItems(Min(RenderItems(items, depth, true) + ("]" + s), astray), done)
         == Parsed(Array(done + UnsignedItems(items)), Min(s, WalkItems(items, astray).value))
    decreases items, 0
  {
    var end := "]" + s;
    var text := Min(RenderItems(items, depth, true) + end, astray);
    var behind := Walk(items[0], astray).value;
    if |items| == 1 {
      ItemsText(items, depth, true, end);
      MinBare("]", s, astray);
      MinBare("]", s, behind);
      ValueBack(items[0], depth + 1, astray, end);
      ItemsEnd(text, Unsigned(items[0]), Min(s, behind), done);
      assert UnsignedItems(items) == [Unsigned(items[0])];
    } else {
      FirstItemGoesOn(items, depth, astray, done, s);
      ItemsBack(items[1..], depth, behind, done + [Unsigned(items[0])], s);
      Regroup(done, [Unsigned(items[0])], UnsignedItems(items[1..]));
    }
  }

  lemma {:induction false} FirstItemGoesOn(items: seq<Json>, depth: nat, astray: bool, done: seq<Json>, s: string)
    requires |items| > 1 && Printable(Array(items)) && Walk(items[0], astray).Some?
    ensures ParseItems(Min(RenderItems(items, depth, true) + ("]" + s), astray), done)
         == ParseItems(Min(RenderItems(items[1..], depth, true) + ("]" + s), Walk(items[0], astray).value), done + [Unsigned(items[0])])
    decreases items, 0, 0
  {
    var end, behind := "]" + s, Walk(items[0], astray).value;
    var next := RenderItems(items[1..], depth, true) + end;
    FirstItemText(items, depth, astray, end);
    FirstItemText(items, depth, behind, end);
    var text := Min(Render(items[0], depth + 1, true) + ("," + (" " + next)), astray);
    ValueBack(items[0], depth + 1, astray, "," + (" " + next));
    ItemsHeadMin(items[1..], depth, end, behind);
    ItemsGoOn(text, Unsigned(items[0]), Left(" ", behind), Min(next, behind), done);
  }

  lemma EmptyObjectBack(depth: nat, astray: bool, s: string)
    ensures ParseValue(Min(Render(Object([]), depth, true) + s, astray)) == Parsed(Object([]), Min(s, astray))
  {
    var blank := "\n" + Tabs(depth);
    EmptyObjectText(depth, true, s);
    MinBare("{", blank + ("}" + s), astray);
    MinBlank(blank, "}" + s, astray);
    MinBare("}", s, astray);
    ObjectOpens(Left(blank, astray), "}" + Min(s, astray));
    assert ("}" + Min(s, astray))[1..] == Min(s, astray);
  }

  lemma ObjectOpening(members: seq<Member>, depth: nat, astray: bool, s: string)
    requires members != []
    ensures var next := Min(MemberText(members, depth + 1, true) + (Tabs(depth) + ("}" + s)), astray);
            ParseValue(Min(Render(Object(members), depth, true) + s, astray)) == ParseMembers(next, [])
  {
    var blank, text := "\n" + Tabs(depth + 1), MemberText(members, depth + 1, true) + (Tabs(depth) + ("}" + s));
    ObjectText(members, depth, true, s);
    MinBare("{", blank + text, astray);
    MinBlank(blank, text, astray);
    MinHead(text, astray);
    ObjectOpens(Left(blank, astray), Min(text, astray));
  }

  lemma {:induction false} ObjectBack(members: seq<Member>, depth: nat, astray: bool, s: string)
    requires Printable(Object(members)) && WalkMembers(members, astray).Some?
    ensures ParseValue(Min(Render(Object(members), depth, true) + s, astray))
         == Parsed(Object(UnsignedMembers(members)), Min(s, WalkMembers(members, astray).value))
    decreases members, 3
  {
    if members == [] {
      EmptyObjectBack(depth, astray, s);
    } else {
      ObjectOpening(members, depth, astray, s);
      MembersBack(members, depth + 1, astray, [], depth, s);
      assert [] + UnsignedMembers(members) == UnsignedMembers(members);
    }
  }

  /** What the minifier leaves of a member up to its value. */
  lemma MemberMin(members: seq<Member>, depth: nat, astray: bool, end: string)
    requires members != [] && PlainText(members[0].key) && WalkText(members[0].key, astray).Some?
    ensures var m, behind := members[0], WalkText(members[0].key, astray).value;
            && Min(MemberText(members, depth, true) + end, astray) ==
               Quote(m.key) + (":" + (Left("\t", behind) +
               Min(Render(m.value, depth, true) + (RenderMoreMembers(members, depth, true) + end), behind)))
            && AllBlank(Left("\t", behind))
  {
    var m, behind := members[0], WalkText(members[0].key, astray).value;
    var value := Render(m.value, depth, true) + (RenderMoreMembers(members, depth, true) + end);
    MemberTextSplits(members, depth, true, end);
    MinQuote(m.key, ":" + ("\t" + value), astray);
    MinBare(":", "\t" + value, behind);
    MinBlank("\t", value, behind);
  }

  /** What it leaves behind the last value, and behind any other. */
  lemma LastMin(members: seq<Member>, depth: nat, astray: bool, k: nat, s: string)
    requires |members| == 1
    ensures var blank := Left("\n" + Tabs(k), astray);
            && Min(RenderMoreMembers(members, depth, true) + (Tabs(k) + ("}" + s)), astray) == blank + ("}" + Min(s, astray))
            && AllBlank(blank)
  {
    MoreMembersText(members, depth, true, Tabs(k) + ("}" + s));
    Regroup("\n", Tabs(k), "}" + s);
    MinBlank("\n" + Tabs(k), "}" + s, astray);
    MinBare("}", s, astray);
  }

  lemma CommaMin(members: seq<Member>, depth: nat, astray: bool, end: string)
    requires |members| > 1
    ensures var blank, next := Left("\n" + Tabs(depth), astray), Min(MemberText(members[1..], depth, true) + end, astray);
            && Min(RenderMoreMembers(members, depth, true) + end, astray) == "," + (blank + next)
            && AllBlank(blank) && next != "" && next[0] == '\"'
  {
    var blank, next := "\n" + Tabs(depth), MemberText(members[1..], depth, true) + end;
    MoreMembersText(members, depth, true, end);
    MinBare(",", blank + next, astray);
    MinBlank(blank, next, astray);
    MinHead(next, astray);
  }

  lemma MoreIsDelimited(members: seq<Member>, depth: nat, astray: bool, k: nat, s: string)
    requires members != []
    ensures Delimited(Min(RenderMoreMembers(members, depth, true) + (Tabs(k) + ("}" + s)), astray))
  {
    if |members| == 1 {
      LastMin(members, depth, astray, k, s);
    } else {
      CommaMin(members, depth, astray, Tabs(k) + ("}" + s));
    }
  }

  lemma {:induction false} MembersBack(members: seq<Member>, depth: nat, astray: bool, done: seq<Member>, k: nat, s: string)
    requires members != [] && Printable(Object(members)) && WalkMembers(members, astray).Some?
    ensures ParseMembers(Min(MemberText(members, depth, true) + (Tabs(k) + ("}" + s)), astray), done)
         == Parsed(Object(done + UnsignedMembers(members)), Min(s, WalkMembers(members, astray).value))
    decreases members, 2
  {
    var m, behindKey := members[0], WalkText(members[0].key, astray).value;
    var behind := Walk(m.value, behindKey).value;
    if |members| == 1 {
      LastMemberBack(members, depth, astray, k, s);
      MembersEnd(Min(MemberText(members, depth, true) + (Tabs(k) + ("}" + s)), astray), UnsignedMember(m), Min(s, behind), done);
      assert UnsignedMembers(members) == [UnsignedMember(m)];
    } else {
      MemberGoesOn(members, depth, astray, done, k, s);
      MembersBack(members[1..], depth, behind, done + [UnsignedMember(m)], k, s);
      Regroup(done, [UnsignedMember(m)], UnsignedMembers(members[1..]));
    }
  }

  lemma {:induction false} LastMemberBack(members: seq<Member>, depth: nat, astray: bool, k: nat, s: string)
    requires |members| == 1 && Printable(Object(members)) && WalkMembers(members, astray).Some?
    ensures ParseMember(Min(MemberText(members, depth, true) + (Tabs(k) + ("}" + s)), astray))
         == Parsed(UnsignedMember(members[0]), "}" + Min(s, WalkMembers(members, astray).value))
    decreases members, 1
  {
    var m, behindKey, end := members[0], WalkText(members[0].key, astray).value, Tabs(k) + ("}" + s);
    var behind, more := Walk(m.value, behindKey).value, RenderMoreMembers(members, depth, true) + end;
    MemberMin(members, depth, astray, end);
    MoreIsDelimited(members, depth, behindKey, k, s);
    ValueBack(m.value, depth, behindKey, more);
    LastMin(members, depth, behind, k, s);
    ValueHead(m.value, depth, more, behindKey);
    MemberParses(m.key, Left("\t", behindKey), Min(Render(m.value, depth, true) + more, behindKey), Unsigned(m.value),
                 Left("\n" + Tabs(k), behind), "}" + Min(s, behind));
  }

  lemma {:induction false} MemberGoesOn(members: seq<Member>, depth: nat, astray: bool, done: seq<Member>, k: nat, s: string)
    requires |members| > 1 && Printable(Object(members))
    requires WalkText(members[0].key, astray).Some? && Walk(members[0].value, WalkText(members[0].key, astray).value).Some?
    ensures var end, behind := Tabs(k) + ("}" + s), Walk(members[0].value, WalkText(members[0].key, astray).value).value;
            ParseMembers(Min(MemberText(members, depth, true) + end, astray), done) ==
            ParseMembers(Min(MemberText(members[1..], depth, true) + end, behind), done + [UnsignedMember(members[0])])
    decreases members, 1
  {
    var m, behindKey, end := members[0], WalkText(members[0].key, astray).value, Tabs(k) + ("}" + s);
    var behind, more := Walk(m.value, behindKey).value, RenderMoreMembers(members, depth, true) + end;
    var blank, next := Left("\n" + Tabs(depth), behind), Min(MemberText(members[1..], depth, true) + end, behind);
    MemberMin(members, depth, astray, end);
    MoreIsDelimited(members, depth, behindKey, k, s);
    ValueBack(m.value, depth, behindKey, more);
    CommaMin(members, depth, behind, end);
    ValueHead(m.value, depth, more, behindKey);
    assert "" + ("," + (blank + next)) == "," + (blank + next);
    MemberParses(m.key, Left("\t", behindKey), Min(Render(m.value, depth, true) + more, behindKey), Unsigned(m.value), "", "," + (blank + next));
    MembersGoOn(Min(MemberText(members, depth, true) + end, astray), UnsignedMember(m), blank, next, done);
  }

  // ----- Values that lose something -----

  predicate EscapeLetter(c: char) {
    c == '\\' || c == '\"' || c == 'b' || c == 'f' || c == 'n' || c == 'r' || c == 't'
  }

  /** Every backslash starts one of the escapes that the printer writes. */
  predicate Aligned(s: string)
    decreases |s|
  {
    s != "" ==>
      if s[0] == '\\' then |s| > 1 && EscapeLetter(s[1]) && Aligned(s[2..]) else Aligned(s[1..])
  }

  lemma {:induction false} AlignedBoth(a: string, b: string)
    requires Aligned(a) && Aligned(b)
    ensures Aligned(a + b)
    decreases |a|
  {
    if a == "" {
      assert a + b == b;
    } else if a[0] == '\\' {
      assert (a + b)[2..] == a[2..] + b;
      AlignedBoth(a[2..], b);
    } else {
      assert (a + b)[1..] == a[1..] + b;
      AlignedBoth(a[1..], b);
    }
  }

  lemma {:induction false} NoBackslashIsAligned(s: string)
    requires forall i :: 0 <= i < |s| ==> s[i] != '\\'
    ensures Aligned(s)
    decreases |s|
  {
    if s != "" {
      NoBackslashIsAligned(s[1..]);
    }
  }

  lemma {:induction false} EscapeIsAligned(t: string)
    requires PlainText(t)
    ensures Aligned(Escape(t))
    decreases |t|
  {
    if t != "" {
      var e := EscapeChar(t[0]);
      assert |e| == 2 ==> e[2..] == "";
      assert |e| == 1 ==> e[1..] == "";
      EscapeIsAligned(t[1..]);
      AlignedBoth(e, Escape(t[1..]));
    }
  }

  lemma QuoteIsAligned(t: string)
    requires PlainText(t)
    ensures Aligned(Quote(t))
  {
    EscapeIsAligned(t);
    NoBackslashIsAligned("\"");
    AlignedBoth(Escape(t), "\"");
    AlignedBoth("\"", Escape(t) + "\"");
  }

  lemma {:induction false} RenderIsAligned(v: Json, depth: nat)
    requires Printable(v)
    ensures Aligned(Render(v, depth, true))
    decreases v, 1
  {
    match v
    case String(t) => QuoteIsAligned(t);
    case Array(items) =>
      ItemsAreAligned(items, depth);
      NoBackslashIsAligned("[");
      NoBackslashIsAligned("]");
      AlignedBoth(RenderItems(items, depth, true), "]");
      AlignedBoth("[", RenderItems(items, depth, true) + "]");
    case Object(members) =>
      var close := Tabs(depth) + "}";
      MembersAreAligned(members, depth + 1);
      NoBackslashIsAligned(close);
      NoBackslashIsAligned("{\n");
      AlignedBoth(RenderMembers(members, depth + 1, true), close);
      AlignedBoth("{\n", RenderMembers(members, depth + 1, true) + close);
      Regroup("{", "\n", RenderMembers(members, depth + 1, true) + close);
    case _ => NoBackslashIsAligned(Render(v, depth, true));
  }

  lemma {:induction false} ItemsAreAligned(items: seq<Json>, depth: nat)
    requires Printable(Array(items))
    ensures Aligned(RenderItems(items, depth, true))
    decreases items, 0
  {
    if items != [] {
      RenderIsAligned(items[0], depth + 1);
      ItemsAreAligned(items[1..], depth);
      if |items| > 1 {
        NoBackslashIsAligned(", ");
        AlignedBoth(", ", RenderItems(items[1..], depth, true));
        Regroup(",", " ", RenderItems(items[1..], depth, true));
      }
      AlignedBoth(Render(items[0], depth + 1, true), RenderMoreItems(items, depth, true));
    }
  }

  lemma {:induction false} MoreMembersAreAligned(members: seq<Member>, depth: nat)
    requires members != [] && Printable(Object(members))
    ensures Aligned(RenderMoreMembers(members, depth, true))
    decreases members, 0, 0
  {
    var comma := if |members| == 1 then "" else ",";
    MembersAreAligned(members[1..], depth);
    NoBackslashIsAligned(comma);
    NoBackslashIsAligned("\n");
    AlignedBoth("\n", RenderMembers(members[1..], depth, true));
    AlignedBoth(comma, "\n" + RenderMembers(members[1..], depth, true));
  }

  lemma {:induction false} MembersAreAligned(members: seq<Member>, depth: nat)
    requires Printable(Object(members))
    ensures Aligned(RenderMembers(members, depth, true))
    decreases members, 0
  {
    if members != [] {
      var m, more := members[0], RenderMoreMembers(members, depth, true);
      var value := Render(m.value, depth, true) + more;
      RenderIsAligned(m.value, depth);
      MoreMembersAreAligned(members, depth);
      AlignedBoth(Render(m.value, depth, true), more);
      QuoteIsAligned(m.key);
      NoBackslashIsAligned(":\t");
      NoBackslashIsAligned(Tabs(depth));
      AlignedBoth(":\t", value);
      Regroup(":", "\t", value);
      AlignedBoth(Quote(m.key), ":" + ("\t" + value));
      AlignedBoth(Tabs(depth), Quote(m.key) + (":" + ("\t" + value)));
    }
  }

  lemma {:induction false} AfterLineIsAligned(s: string)
    requires Aligned(s)
    ensures Aligned(AfterLine(s))
    decreases |s|
  {
    if s != "" {
      if s[0] == '\\' {
        assert s[1..][1..] == s[2..];
        AfterLineIsAligned(s[2..]);
      } else {
        AfterLineIsAligned(s[1..]);
      }
    }
  }

  lemma {:induction false} AfterBlockIsAligned(s: string)
    requires Aligned(s)
    ensures Aligned(AfterBlock(s))
    decreases |s|
  {
    if s != "" {
      if s[0] == '\\' {
        assert s[1..][1..] == s[2..];
        AfterBlockIsAligned(s[2..]);
      } else {
        assert |s| > 1 ==> s[1..][1..] == s[2..];
        AfterBlockIsAligned(s[1..]);
      }
    }
  }

  /** Bare text never starts with a blank or a slash once it is minified, nor with an escape
      that stands for one. */
  predicate SafeHead(y: string) {
    y != "" ==> y[0] != ' ' && y[0] != '/' && (y[0] == '\\' ==> |y| > 1 && EscapeLetter(y[1]))
  }

  lemma {:induction false} MinifyHasSafeHead(s: string)
    requires Aligned(s)
    ensures SafeHead(Minify(s))
    decreases |s|
  {
    if s != "" {
      if Layout4(s[0]) {
        MinifyHasSafeHead(s[1..]);
      } else if s[0] == '/' {
        SlashIsSkipped(s);
      } else if s[0] == '\\' {
        assert Minify(s) == ['\\'] + Minify(s[1..]);
        MinHead(s[1..], false);
      }
    }
  }

  lemma {:induction false} SlashIsSkipped(s: string)
    requires s != "" && s[0] == '/' && Aligned(s)
    ensures SafeHead(Minify(s))
    decreases |s|, 0
  {
    MinifyHasSafeHead(s[1..]);
    if |s| > 1 && (s[1] == '/' || s[1] == '*') {
      assert s[1..][1..] == s[2..] && Aligned(s[2..]);
      AfterLineIsAligned(s[2..]);
      AfterBlockIsAligned(s[2..]);
      MinifyHasSafeHead(AfterLine(s[2..]));
      MinifyHasSafeHead(AfterBlock(s[2..]));
    }
  }

  lemma {:induction false} BodyKeepsOut(s: string, out: string)
    requires StringBody(s, out).Parsed?
    ensures out <= StringBody(s, out).value
    decreases |s|
  {
    if s == "" || s[0] <= 31 as char || s[0] == '\"' {
    } else if s[0] != '\\' {
      BodyKeepsOut(s[1..], out + [s[0]]);
    } else if s[1] == 'u' {
      BodyKeepsOut(s[6..], out + Utf8(QuadValue(s[2..])));
    } else {
      BodyKeepsOut(s[2..], out + [Unescape(s[1])]);
    }
  }

  /** The string that is read there has no blank or slash at that place. */
  lemma SafeBody(y: string, out: string, c: char)
    requires SafeHead(y) && (c == ' ' || c == '/') && StringBody(y, out).Parsed?
    ensures |StringBody(y, out).value| > |out| ==> StringBody(y, out).value[|out|] != c
  {
    if y != "" && y[0] > 31 as char && y[0] != '\"' {
      if y[0] != '\\' {
        BodyKeepsOut(y[1..], out + [y[0]]);
      } else {
        BodyKeepsOut(y[2..], out + [Unescape(y[1])]);
      }
    }
  }

  lemma HeadLoses(t: string, out: string, rest: string)
    requires t != "" && (t[0] == ' ' || t[0] == '/') && Aligned(rest)
    ensures var r := StringBody(Minify([t[0]] + rest), out); r.Parsed? ==> r.value != out + t
  {
    var text := [t[0]] + rest;
    assert text[1..] == rest;
    MinifyHasSafeHead(text);
    if StringBody(Minify(text), out).Parsed? {
      SafeBody(Minify(text), out, t[0]);
      assert (out + t)[|out|] == t[0];
    }
  }

  lemma {:induction false} BodyLoses(t: string, out: string, s: string)
    requires PlainText(t) && Exposed(t) && Aligned(s)
    ensures var r := StringBody(Minify(Escape(t) + s), out); r.Parsed? ==> r.value != out + t
    decreases |t|
  {
    var rest := Escape(t[1..]) + s;
    Regroup(EscapeChar(t[0]), Escape(t[1..]), s);
    if t[0] == ' ' || t[0] == '/' {
      EscapeIsAligned(t[1..]);
      AlignedBoth(Escape(t[1..]), s);
      HeadLoses(t, out, rest);
    } else {
      MinifyOrdinary(EscapeChar(t[0]), rest);
      EscapeCharParses(t[0], Minify(rest), out);
      BodyLoses(t[1..], out + [t[0]], s);
      Regroup(out, [t[0]], t[1..]);
      assert [t[0]] + t[1..] == t;
    }
  }

  /** A text whose blank or slash the minifier eats does not parse back. */
  lemma TextLoses(t: string, s: string)
    requires PlainText(t) && Exposed(t) && Aligned(s)
    ensures var r := ParseString(Min(Quote(t) + s, true)); r.Parsed? ==> r.value != t
  {
    ClosedByNext(t, s);
    NoBackslashIsAligned("\"");
    AlignedBoth("\"", s);
    BodyLoses(t, "", "\"" + s);
    assert "" + t == t;
    var body := Minify(Escape(t) + ("\"" + s));
    assert ("\"" + body)[1..] == body;
  }

  lemma {:induction false} ItemsKeepDone(s: string, done: seq<Json>)
    requires ParseItems(s, done).Parsed?
    ensures ParseValue(s).Parsed? && ParseItems(s, done).value.Array?
    ensures done + [ParseValue(s).value] <= ParseItems(s, done).value.items
    decreases |s|
  {
    var v := ParseValue(s);
    var next := Skip(v.rest);
    if next.rest[0] == ',' {
      ItemsKeepDone(Skip(next.rest[1..]).rest, done + [v.value]);
    }
  }

  lemma {:induction false} MembersKeepDone(s: string, done: seq<Member>)
    requires ParseMembers(s, done).Parsed?
    ensures ParseMember(s).Parsed? && ParseMembers(s, done).value.Object?
    ensures done + [ParseMember(s).value] <= ParseMembers(s, done).value.members
    decreases |s|
  {
    var m := ParseMember(s);
    if m.rest[0] == ',' {
      MembersKeepDone(Skip(m.rest[1..]).rest, done + [m.value]);
    }
  }

  /** If the minifier eats some of a value, what is left does not parse to that value. */
  lemma {:induction false} ValueLoses(v: Json, depth: nat, astray: bool, s: string)
    requires Printable(v) && Walk(v, astray).None? && Aligned(s)
    ensures var r := ParseValue(Min(Render(v, depth, true) + s, astray)); r.Parsed? ==> r.value != Unsigned(v)
    decreases v, 1
  {
    match v
    case String(t) => StringLoses(t, s);
    case Array(items) => ArrayLoses(items, depth, astray, s);
    case Object(members) =>
      ObjectOpening(members, depth, astray, s);
      MembersLose(members, depth + 1, astray, [], depth, s);
      assert [] + UnsignedMembers(members) == UnsignedMembers(members);
  }

  lemma StringLoses(t: string, s: string)
    requires PlainText(t) && Exposed(t) && Aligned(s)
    ensures var r := ParseValue(Min(Quote(t) + s, true)); r.Parsed? ==> r.value != String(t)
  {
    TextLoses(t, s);
    MinHead(Quote(t) + s, true);
    NotAKeyword(Min(Quote(t) + s, true));
  }

  lemma {:induction false} ArrayLoses(items: seq<Json>, depth: nat, astray: bool, s: string)
    requires items != [] && Printable(Array(items)) && WalkItems(items, astray).None? && Aligned(s)
    ensures var r := ParseValue(Min(Render(Array(items), depth, true) + s, astray)); r.Parsed? ==> r.value != Array(UnsignedItems(items))
    decreases items, 1
  {
    ArrayText(items, depth, astray, s);
    ItemsHeadMin(items, depth, "]" + s, astray);
    ArrayOpens(Min(RenderItems(items, depth, true) + ("]" + s), astray));
    ItemsLose(items, depth, astray, [], s);
    assert [] + UnsignedItems(items) == UnsignedItems(items);
  }

  lemma {:induction false} ItemsLose(items: seq<Json>, depth: nat, astray: bool, done: seq<Json>, s: string)
    requires Printable(Array(items)) && WalkItems(items, astray).None? && Aligned(s)
    ensures var r := ParseItems(Min(RenderItems(items, depth, true) + ("]" + s), astray), done);
            r.Parsed? ==> r.value != Array(done + UnsignedItems(items))
    decreases items, 0
  {
    if Walk(items[0], astray).None? {
      FirstItemLoses(items, depth, astray, done, s);
    } else {
      FirstItemGoesOn(items, depth, astray, done, s);
      ItemsLose(items[1..], depth, Walk(items[0], astray).value, done + [Unsigned(items[0])], s);
      Regroup(done, [Unsigned(items[0])], UnsignedItems(items[1..]));
    }
  }

  lemma {:induction false} FirstItemLoses(items: seq<Json>, depth: nat, astray: bool, done: seq<Json>, s: string)
    requires items != [] && Printable(Array(items)) && Walk(items[0], astray).None? && Aligned(s)
    ensures var r := ParseItems(Min(RenderItems(items, depth, true) + ("]" + s), astray), done);
            r.Parsed? ==> r.value != Array(done + UnsignedItems(items))
    decreases items, 0, 0
  {
    var end := "]" + s;
    var more := RenderMoreItems(items, depth, true) + end;
    Regroup(Render(items[0], depth + 1, true), RenderMoreItems(items, depth, true), end);
    MoreItemsAreAligned(items, depth);
    NoBackslashIsAligned("]");
    AlignedBoth("]", s);
    AlignedBoth(RenderMoreItems(items, depth, true), end);
    ValueLoses(items[0], depth + 1, astray, more);
    var text := Min(Render(items[0], depth + 1, true) + more, astray);
    if ParseItems(text, done).Parsed? {
      ItemsKeepDone(text, done);
      var all := ParseItems(text, done).value.items;
      assert all[|done|] == (done + [ParseValue(text).value])[|done|];
      assert (done + UnsignedItems(items))[|done|] == Unsigned(items[0]);
    }
  }

  lemma MoreItemsAreAligned(items: seq<Json>, depth: nat)
    requires items != [] && Printable(Array(items))
    ensures Aligned(RenderMoreItems(items, depth, true))
  {
    if |items| > 1 {
      ItemsAreAligned(items[1..], depth);
      NoBackslashIsAligned(", ");
      AlignedBoth(", ", RenderItems(items[1..], depth, true));
      Regroup(",", " ", RenderItems(items[1..], depth, true));
    }
  }

  lemma {:induction false} MembersLose(members: seq<Member>, depth: nat, astray: bool, done: seq<Member>, k: nat, s: string)
    requires members != [] && Printable(Object(members)) && WalkMembers(members, astray).None? && Aligned(s)
    ensures var r := ParseMembers(Min(MemberText(members, depth, true) + (Tabs(k) + ("}" + s)), astray), done);
            r.Parsed? ==> r.value != Object(done + UnsignedMembers(members))
    decreases members, 2
  {
    var m, key := members[0], WalkText(members[0].key, astray);
    if key.Some? && Walk(m.value, key.value).Some? {
      MemberGoesOn(members, depth, astray, done, k, s);
      MembersLose(members[1..], depth, Walk(m.value, key.value).value, done + [UnsignedMember(m)], k, s);
      Regroup(done, [UnsignedMember(m)], UnsignedMembers(members[1..]));
    } else {
      MemberLoses(members, depth, astray, Tabs(k) + ("}" + s), s, k);
      var text := Min(MemberText(members, depth, true) + (Tabs(k) + ("}" + s)), astray);
      if ParseMembers(text, done).Parsed? {
        MembersKeepDone(text, done);
        var all := ParseMembers(text, done).value.members;
        assert all[|done|] == (done + [ParseMember(text).value])[|done|];
        assert (done + UnsignedMembers(members))[|done|] == UnsignedMember(m);
      }
    }
  }

  lemma {:induction false} MemberLoses(members: seq<Member>, depth: nat, astray: bool, end: string, s: string, k: nat)
    requires members != [] && Printable(Object(members)) && Aligned(s) && end == Tabs(k) + ("}" + s)
    requires var key := WalkText(members[0].key, astray); key.None? || Walk(members[0].value, key.value).None?
    ensures var r := ParseMember(Min(MemberText(members, depth, true) + end, astray)); r.Parsed? ==> r.value != UnsignedMember(members[0])
    decreases members, 1
  {
    var m, more := members[0], RenderMoreMembers(members, depth, true) + end;
    var value := Render(m.value, depth, true) + more;
    MoreIsAligned(members, depth, k, s);
    if WalkText(m.key, astray).None? {
      MemberTextSplits(members, depth, true, end);
      ColonIsAligned(m.value, depth, more);
      TextLoses(m.key, ":" + ("\t" + value));
    } else {
      var behind := WalkText(m.key, astray).value;
      MemberMin(members, depth, astray, end);
      ValueLoses(m.value, depth, behind, more);
      ValueHead(m.value, depth, more, behind);
      MemberValue(m.key, Left("\t", behind), Min(value, behind));
    }
  }

  /** A member that parses has the value that its value text parses to. */
  lemma MemberValue(key: string, blank: string, text: string)
    requires PlainText(key) && AllBlank(blank) && text != "" && !Blank(text[0])
    ensures var r := ParseMember(Quote(key) + (":" + (blank + text)));
            r.Parsed? ==> ParseValue(text).Parsed? && r.value == Member(key, ParseValue(text).value)
  {
    var colon := ":" + (blank + text);
    QuoteParses(key, colon);
    assert colon[1..] == blank + text;
    SkipBlanks(blank, text);
  }

  lemma MoreIsAligned(members: seq<Member>, depth: nat, k: nat, s: string)
    requires members != [] && Printable(Object(members)) && Aligned(s)
    ensures Aligned(RenderMoreMembers(members, depth, true) + (Tabs(k) + ("}" + s)))
  {
    MoreMembersAreAligned(members, depth);
    NoBackslashIsAligned(Tabs(k));
    NoBackslashIsAligned("}");
    AlignedBoth("}", s);
    AlignedBoth(Tabs(k), "}" + s);
    AlignedBoth(RenderMoreMembers(members, depth, true), Tabs(k) + ("}" + s));
  }

  lemma ColonIsAligned(v: Json, depth: nat, more: string)
    requires Printable(v) && Aligned(more)
    ensures Aligned(":" + ("\t" + (Render(v, depth, true) + more)))
  {
    RenderIsAligned(v, depth);
    AlignedBoth(Render(v, depth, true), more);
    NoBackslashIsAligned(":");
    NoBackslashIsAligned("\t");
    AlignedBoth("\t", Render(v, depth, true) + more);
    AlignedBoth(":", "\t" + (Render(v, depth, true) + more));
  }

  // ----- The law -----

  /** For every value: printing, minifying and parsing gives it back, without its signs,
      exactly when no string that the minifier meets astray has a blank or a slash before
      its first quote. */
  lemma SurvivesIff(v: Json)
    requires Printable(v)
    ensures ParseText(Minify(Print(v))) == Parsed(Unsigned(v), "") <==> Walk(v, false).Some?
    ensures Faithful(v) ==> (ParseText(Minify(Print(v))) == Parsed(v, "") <==> Walk(v, false).Some?)
  {
    var text := Minify(Print(v));
    assert Print(v) + "" == Print(v);
    ValueHead(v, 0, "", false);
    SkipBlanks("", text);
    assert "" + text == text;
    if Walk(v, false).Some? {
      ValueBack(v, 0, false, "");
    } else {
      ValueLoses(v, 0, false, "");
    }
    UnsignedIff(v);
  }

  /** For two texts: the first does not end in a backslash, or the second has no blank or
      slash before its first quote. */
  lemma PairSurvivesIff(t: string, u: string)
    requires PlainText(t) && PlainText(u)
    ensures ParseText(Minify(Print(Array([String(t), String(u)])))) == Parsed(Array([String(t), String(u)]), "")
       <==> !EndsInBackslash(t) || !Exposed(u)
  {
    var v := Array([String(t), String(u)]);
    PairWalk(t, u);
    PairUnsigned(t, u);
    UnsignedIff(v);
    SurvivesIff(v);
  }

  lemma PairWalk(t: string, u: string)
    ensures Walk(Array([String(t), String(u)]), false).Some? <==> !EndsInBackslash(t) || !Exposed(u)
  {
    var items, end := [String(t), String(u)], EndsInBackslash(t);
    assert items[1..] == [String(u)] && items[1..][1..] == [];
    assert WalkItems(items, false) == WalkItems(items[1..], end);
    assert WalkItems(items[1..], end).Some? <==> WalkText(u, end).Some?;
  }
}
