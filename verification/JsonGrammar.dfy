/** The texts that the parser takes, and what each of them means. */
module JsonGrammar {
  import opened Texts
  import opened Json
  import opened Sequences
  import opened JsonRoundTrip

  // ----- Spellings -----

  /** One piece of a string: a plain character, a backslash and a letter, or `\u` and four
      hexadecimal digits. */
  datatype Part = Raw(c: char) | Esc(c: char) | Uni(hex: string)

  /** How a value is written, with all its blanks. */
  datatype Spelling =
    | Word(v: Json)
    | Num(minus: bool, zero: bool, digits: string)
    | Str(parts: seq<Part>, closed: bool)
    | Arr(open: string, items: seq<Item>)
    | Obj(open: string, members: seq<Pair>)

  /** An item, the blanks behind it, and those behind its comma. */
  datatype Item = Item(value: Spelling, after: string, next: string)

  datatype Pair = Pair(key: seq<Part>, closed: bool, colon: string, before: string, item: Item)

  function PartText(p: Part): string {
    match p
    case Raw(c) => [c]
    case Esc(c) => ['\\', c]
    case Uni(hex) => ['\\', 'u'] + hex
  }

  function PartsText(ps: seq<Part>): string {
    if ps == [] then "" else PartText(ps[0]) + PartsText(ps[1..])
  }

  function StringText(ps: seq<Part>, closed: bool): string {
    "\"" + (PartsText(ps) + if closed then "\"" else "")
  }

  function Spelled(sp: Spelling): string
    decreases sp, 1
  {
    match sp
    case Word(v) => if v.Null? then "null" else if v.True? then "true" else "false"
    case Num(minus, zero, digits) => (if minus then "-" else "") + ((if zero then "0" else "") + digits)
    case Str(parts, closed) => StringText(parts, closed)
    case Arr(open, items) => "[" + (open + ItemsText(items))
    case Obj(open, members) => "{" + (open + PairsText(members))
  }

  /** The items and the closing bracket. */
  function ItemsText(items: seq<Item>): string
    decreases items, 0
  {
    if items == [] then "]"
    else Spelled(items[0].value) + (items[0].after + if |items| == 1 then "]" else "," + (items[0].next + ItemsText(items[1..])))
  }

  function PairsText(pairs: seq<Pair>): string
    decreases pairs, 0
  {
    if pairs == [] then "}"
    else
      var p := pairs[0];
      StringText(p.key, p.closed) + (p.colon + (":" + (p.before + (Spelled(p.item.value) +
      (p.item.after + if |pairs| == 1 then "}" else "," + (p.item.next + PairsText(pairs[1..])))))))
  }

  // ----- What they mean -----

  /** The character codes that the letters stand for. */
  function Escaped(c: char): char {
    match c
    case 'b' => 8 as char
    case 'f' => 12 as char
    case 'n' => 10 as char
    case 'r' => 13 as char
    case 't' => 9 as char
    case _ => c
  }

  function PartMeaning(p: Part): string
    requires PartOk(p)
  {
    match p
    case Raw(c) => [c]
    case Esc(c) => [Escaped(c)]
    case Uni(hex) => Utf8(QuadValue(hex))
  }

  function PartsMeaning(ps: seq<Part>): string
    requires PartsOk(ps)
  {
    if ps == [] then "" else PartMeaning(ps[0]) + PartsMeaning(ps[1..])
  }

  function Meaning(sp: Spelling): Json
    requires Ok(sp)
    decreases sp, 1
  {
    match sp
    case Word(v) => v
    case Num(_, _, digits) => Number(Wrap32(Fold(digits, 0)))
    case Str(parts, _) => String(PartsMeaning(parts))
    case Arr(_, items) => Array(ItemsMeaning(items))
    case Obj(_, members) => Object(PairsMeaning(members))
  }

  function ItemsMeaning(items: seq<Item>): (r: seq<Json>)
    requires ItemsOk(items)
    decreases items, 0
  {
    if items == [] then []
    else
      assert ItemOk(items[0], ']', |items| == 1);
      [Meaning(items[0].value)] + ItemsMeaning(items[1..])
  }

  function PairsMeaning(pairs: seq<Pair>): (r: seq<Member>)
    requires PairsOk(pairs)
    decreases pairs, 0
  {
    if pairs == [] then []
    else
      assert ItemOk(pairs[0].item, '}', |pairs| == 1);
      [Member(PartsMeaning(pairs[0].key), Meaning(pairs[0].item.value))] + PairsMeaning(pairs[1..])
  }

  // ----- Which of them are taken -----

  predicate BlankText(s: string) {
    forall i :: 0 <= i < |s| ==> s[i] as int <= 32
  }

  predicate PartOk(p: Part) {
    match p
    case Raw(c) => c as int > 31 && c != '\"' && c != '\\'
    case Esc(c) => c != 'u'
    case Uni(hex) => |hex| == 4 && HexQuad(hex)
  }

  predicate PartsOk(ps: seq<Part>) {
    forall i :: 0 <= i < |ps| ==> PartOk(ps[i])
  }

  /** What may stand right behind the text of a string: anything, unless the closing quote
      is missing. */
  predicate StringEnds(closed: bool, s: string) {
    closed || s == "" || s[0] as int <= 31
  }

  /** What may stand right behind a value: a number must not go on. */
  predicate Ends(sp: Spelling, s: string) {
    match sp
    case Num(_, zero, digits) =>
      s != "" ==> if digits != "" then !IsDigit(s[0]) else !('1' <= s[0] <= '9') && (zero || s[0] != '0')
    case Str(_, closed) => StringEnds(closed, s)
    case _ => true
  }

  predicate Ok(sp: Spelling)
    decreases sp, 1
  {
    match sp
    case Word(v) => v.Null? || v.True? || v.False?
    case Num(minus, zero, digits) =>
      && (minus || zero || digits != "")
      && (digits != "" ==> digits[0] != '0')
      && forall i :: 0 <= i < |digits| ==> IsDigit(digits[i])
    case Str(parts, _) => PartsOk(parts)
    case Arr(open, items) => BlankText(open) && ItemsOk(items)
    case Obj(open, members) => BlankText(open) && PairsOk(members)
  }

  predicate ItemOk(item: Item, close: char, last: bool)
    decreases item, 2
  {
    && Ok(item.value) && BlankText(item.after) && BlankText(item.next)
    && Ends(item.value, item.after + [if last then close else ','])
  }

  predicate ItemsOk(items: seq<Item>)
    decreases items, 0
  {
    items != [] ==> ItemOk(items[0], ']', |items| == 1) && ItemsOk(items[1..])
  }

  predicate PairsOk(pairs: seq<Pair>)
    decreases pairs, 0
  {
    pairs != [] ==>
      && PartsOk(pairs[0].key) && BlankText(pairs[0].colon) && BlankText(pairs[0].before)
      && StringEnds(pairs[0].closed, pairs[0].colon + ":")
      && ItemOk(pairs[0].item, '}', |pairs| == 1) && PairsOk(pairs[1..])
  }

  // ----- Every spelling parses to its meaning -----

  lemma BlankTextIsBlank(s: string)
    ensures BlankText(s) <==> AllBlank(s)
  {
  }

  lemma EscapedIsUnescape(c: char)
    ensures Escaped(c) == Unescape(c)
  {
  }

  lemma PartParses(p: Part, s: string, out: string)
    requires PartOk(p)
    ensures StringBody(PartText(p) + s, out) == StringBody(s, out + PartMeaning(p))
  {
    var text := PartText(p) + s;
    match p
    case Raw(c) => assert text[1..] == s;
    case Esc(c) =>
      EscapedIsUnescape(c);
      assert text[2..] == s;
    case Uni(hex) =>
      assert text[2..][..4] == hex && text[6..] == s;
      SameQuad(text[2..], hex);
  }

  lemma SameQuad(s: string, hex: string)
    requires |s| >= 4 && |hex| == 4 && s[..4] == hex
    ensures HexQuad(s) <==> HexQuad(hex)
    ensures HexQuad(hex) ==> QuadValue(s) == QuadValue(hex)
  {
    assert s[0] == s[..4][0] && s[1] == s[..4][1] && s[2] == s[..4][2] && s[3] == s[..4][3];
  }

  lemma {:induction false} PartsParse(ps: seq<Part>, closed: bool, s: string, out: string)
    requires PartsOk(ps) && StringEnds(closed, s)
    ensures StringBody(PartsText(ps) + ((if closed then "\"" else "") + s), out) == Parsed(out + PartsMeaning(ps), s)
    decreases |ps|
  {
    var end := (if closed then "\"" else "") + s;
    if ps == [] {
      assert PartsText(ps) + end == end && out + PartsMeaning(ps) == out;
      assert closed ==> end[1..] == s;
      assert !closed ==> end == s;
    } else {
      Regroup(PartText(ps[0]), PartsText(ps[1..]), end);
      PartParses(ps[0], PartsText(ps[1..]) + end, out);
      PartsParse(ps[1..], closed, s, out + PartMeaning(ps[0]));
      Regroup(out, PartMeaning(ps[0]), PartsMeaning(ps[1..]));
    }
  }

  lemma StringParses(ps: seq<Part>, closed: bool, s: string)
    requires PartsOk(ps) && StringEnds(closed, s)
    ensures ParseString(StringText(ps, closed) + s) == Parsed(PartsMeaning(ps), s)
  {
    var end := if closed then "\"" else "";
    var body := PartsText(ps) + (end + s);
    Regroup("\"", PartsText(ps) + end, s);
    Regroup(PartsText(ps), end, s);
    assert ("\"" + body)[1..] == body;
    PartsParse(ps, closed, s, "");
    assert "" + PartsMeaning(ps) == PartsMeaning(ps);
  }

  /** What the parser makes of the text behind a sign and a leading zero. */
  function Tail(t: string): Parse<Json> {
    if t != "" && '1' <= t[0] <= '9' then Parsed(Number(Wrap32(ScanDigits(t, 0).value)), ScanDigits(t, 0).rest)
    else Parsed(Number(0), t)
  }

  function Unsigned(t: string): Parse<Json> {
    if t != "" && t[0] == '0' then Tail(t[1..]) else Tail(t)
  }

  lemma NumberTail(text: string)
    requires text != "" && (text[0] == '-' || IsDigit(text[0]))
    ensures ParseNumber(text) == if text[0] == '-' then Unsigned(text[1..]) else Unsigned(text)
  {
  }

  lemma {:induction false} TailParses(digits: string, s: string)
    requires digits != "" ==> digits[0] != '0'
    requires forall i :: 0 <= i < |digits| ==> IsDigit(digits[i])
    requires s != "" ==> if digits != "" then !IsDigit(s[0]) else !('1' <= s[0] <= '9')
    ensures Tail(digits + s) == Parsed(Number(Wrap32(Fold(digits, 0))), s)
  {
    if digits == "" {
      assert digits + s == s && Wrap32(0) == 0;
    } else {
      assert (digits + s)[0] == digits[0];
      ScanFolds(digits, s, 0);
    }
  }

  lemma {:induction false} UnsignedParses(zero: bool, digits: string, s: string)
    requires digits != "" ==> digits[0] != '0'
    requires forall i :: 0 <= i < |digits| ==> IsDigit(digits[i])
    requires s != "" ==> if digits != "" then !IsDigit(s[0]) else !('1' <= s[0] <= '9') && (zero || s[0] != '0')
    ensures Unsigned((if zero then "0" else "") + digits + s) == Parsed(Number(Wrap32(Fold(digits, 0))), s)
  {
    TailParses(digits, s);
    var text := (if zero then "0" else "") + digits + s;
    if zero {
      assert text[1..] == digits + s;
    } else {
      assert text == digits + s;
    }
  }

  lemma {:induction false} NumParses(sp: Spelling, s: string)
    requires sp.Num? && Ok(sp) && Ends(sp, s)
    ensures var text := Spelled(sp) + s;
            text != "" && (text[0] == '-' || IsDigit(text[0])) && ParseNumber(text) == Parsed(Meaning(sp), s)
  {
    var unsigned := (if sp.zero then "0" else "") + sp.digits + s;
    NumText(sp.minus, sp.zero, sp.digits, s);
    UnsignedParses(sp.zero, sp.digits, s);
    if sp.minus {
      assert ("-" + unsigned)[1..] == unsigned;
      NumberTail("-" + unsigned);
    } else {
      assert unsigned[0] == if sp.zero then '0' else sp.digits[0];
      NumberTail(unsigned);
    }
  }

  lemma NumText(minus: bool, zero: bool, digits: string, s: string)
    ensures var unsigned := (if zero then "0" else "") + digits + s;
            Spelled(Num(minus, zero, digits)) + s == if minus then "-" + unsigned else unsigned
  {
  }

  lemma {:induction false} ValueParses(sp: Spelling, s: string)
    requires Ok(sp) && Ends(sp, s)
    ensures ParseValue(Spelled(sp) + s) == Parsed(Meaning(sp), s)
    decreases sp, 1
  {
    var text := Spelled(sp) + s;
    match sp
    case Word(v) => KeywordParses(v, s);
    case Num(_, _, _) =>
      NumParses(sp, s);
      NotAKeyword(text);
    case Str(parts, closed) =>
      StringParses(parts, closed, s);
      NotAKeyword(text);
    case Arr(open, items) => ArrParses(open, items, s);
    case Obj(open, members) => ObjParses(open, members, s);
  }

  lemma SpelledHead(sp: Spelling)
    requires Ok(sp)
    ensures Spelled(sp) != "" && !Blank(Spelled(sp)[0]) && Spelled(sp)[0] != ']' && Spelled(sp)[0] != '}'
  {
    if sp.Num? {
      assert Spelled(sp)[0] == if sp.minus then '-' else if sp.zero then '0' else sp.digits[0];
    }
  }

  lemma ItemsHead2(items: seq<Item>)
    requires items != [] && ItemsOk(items)
    ensures ItemsText(items) != "" && !Blank(ItemsText(items)[0]) && ItemsText(items)[0] != ']'
  {
    SpelledHead(items[0].value);
  }

  lemma ArrText(open: string, items: seq<Item>, s: string)
    ensures Spelled(Arr(open, items)) + s == "[" + (open + (ItemsText(items) + s))
  {
    Regroup(open, ItemsText(items), s);
    Regroup("[", open + ItemsText(items), s);
  }

  lemma ObjText(open: string, pairs: seq<Pair>, s: string)
    ensures Spelled(Obj(open, pairs)) + s == "{" + (open + (PairsText(pairs) + s))
  {
    Regroup(open, PairsText(pairs), s);
    Regroup("{", open + PairsText(pairs), s);
  }

  lemma ArrayOpensBlank(open: string, next: string)
    requires AllBlank(open) && next != "" && !Blank(next[0])
    ensures ParseValue("[" + (open + next)) == if next[0] == ']' then Parsed(Array([]), next[1..]) else ParseItems(next, [])
  {
    var text := "[" + (open + next);
    NotAKeyword(text);
    assert text[1..] == open + next;
    SkipBlanks(open, next);
  }

  lemma {:induction false} ArrParses(open: string, items: seq<Item>, s: string)
    requires BlankText(open) && ItemsOk(items)
    ensures ParseValue(Spelled(Arr(open, items)) + s) == Parsed(Array(ItemsMeaning(items)), s)
    decreases items, 1
  {
    var next := ItemsText(items) + s;
    ArrText(open, items, s);
    BlankTextIsBlank(open);
    if items != [] {
      ItemsHead2(items);
    }
    ArrayOpensBlank(open, next);
    if items == [] {
      assert next[1..] == s;
    } else {
      ItemsParse(items, [], s);
      assert [] + ItemsMeaning(items) == ItemsMeaning(items);
    }
  }

  /** What follows the first item. */
  function ItemTail(items: seq<Item>): string
    requires items != []
  {
    if |items| == 1 then "]" else "," + (items[0].next + ItemsText(items[1..]))
  }

  lemma EndsEarly(sp: Spelling, after: string, c: char, more: string)
    ensures Ends(sp, after + [c]) <==> Ends(sp, after + ([c] + more))
  {
    assert (after + [c])[0] == (after + ([c] + more))[0];
  }

  lemma ItemSplits(items: seq<Item>, s: string)
    requires items != []
    ensures ItemsText(items) + s == Spelled(items[0].value) + (items[0].after + (ItemTail(items) + s))
  {
    Regroup(items[0].after, ItemTail(items), s);
    Regroup(Spelled(items[0].value), items[0].after + ItemTail(items), s);
  }

  lemma {:induction false} ItemParses(it: Item, last: bool, tail: string)
    requires ItemOk(it, ']', last) && tail != "" && tail[0] == (if last then ']' else ',')
    ensures ParseValue(Spelled(it.value) + (it.after + tail)) == Parsed(Meaning(it.value), it.after + tail)
    ensures Skip(it.after + tail) == Parsed((), tail)
    decreases it, 0
  {
    assert tail == [tail[0]] + tail[1..];
    EndsEarly(it.value, it.after, tail[0], tail[1..]);
    ValueParses(it.value, it.after + tail);
    BlankTextIsBlank(it.after);
    SkipBlanks(it.after, tail);
  }

  lemma {:induction false} ItemsParse(items: seq<Item>, done: seq<Json>, s: string)
    requires items != [] && ItemsOk(items)
    ensures ParseItems(ItemsText(items) + s, done) == Parsed(Array(done + ItemsMeaning(items)), s)
    decreases items, 0
  {
    var it, tail := items[0], ItemTail(items) + s;
    ItemSplits(items, s);
    ItemParses(it, |items| == 1, tail);
    if |items| == 1 {
      assert tail[1..] == s;
      assert ItemsMeaning(items) == [Meaning(it.value)];
    } else {
      var next := ItemsText(items[1..]) + s;
      Regroup(",", it.next + ItemsText(items[1..]), s);
      Regroup(it.next, ItemsText(items[1..]), s);
      assert tail[1..] == it.next + next;
      BlankTextIsBlank(it.next);
      ItemsHead2(items[1..]);
      SkipBlanks(it.next, next);
      ItemsParse(items[1..], done + [Meaning(it.value)], s);
      Regroup(done, [Meaning(it.value)], ItemsMeaning(items[1..]));
    }
  }

  lemma {:induction false} ObjParses(open: string, pairs: seq<Pair>, s: string)
    requires BlankText(open) && PairsOk(pairs)
    ensures ParseValue(Spelled(Obj(open, pairs)) + s) == Parsed(Object(PairsMeaning(pairs)), s)
    decreases pairs, 1
  {
    var next := PairsText(pairs) + s;
    ObjText(open, pairs, s);
    BlankTextIsBlank(open);
    ObjectOpens(open, next);
    if pairs == [] {
      assert next[1..] == s;
    } else {
      PairsParse(pairs, [], s);
      assert [] + PairsMeaning(pairs) == PairsMeaning(pairs);
    }
  }

  function PairTail(pairs: seq<Pair>): string
    requires pairs != []
  {
    if |pairs| == 1 then "}" else "," + (pairs[0].item.next + PairsText(pairs[1..]))
  }

  lemma PairSplits(pairs: seq<Pair>, s: string)
    requires pairs != []
    ensures var p := pairs[0];
            PairsText(pairs) + s == StringText(p.key, p.closed) + (p.colon + (":" + (p.before + (Spelled(p.item.value) +
            (p.item.after + (PairTail(pairs) + s))))))
  {
    var p, tail := pairs[0], PairTail(pairs);
    var key, value := StringText(p.key, p.closed), Spelled(p.item.value);
    Regroup(p.item.after, tail, s);
    Regroup(value, p.item.after + tail, s);
    Regroup(p.before, value + (p.item.after + tail), s);
    Regroup(":", p.before + (value + (p.item.after + tail)), s);
    Regroup(p.colon, ":" + (p.before + (value + (p.item.after + tail))), s);
    Regroup(key, p.colon + (":" + (p.before + (value + (p.item.after + tail)))), s);
  }

  lemma {:induction false} PairParses(p: Pair, close: char, last: bool, tail: string)
    requires PartsOk(p.key) && BlankText(p.colon) && BlankText(p.before) && StringEnds(p.closed, p.colon + ":")
    requires ItemOk(p.item, close, last) && tail != "" && tail[0] == (if last then close else ',') && !Blank(tail[0])
    ensures ParseMember(StringText(p.key, p.closed) + (p.colon + (":" + (p.before + (Spelled(p.item.value) + (p.item.after + tail))))))
         == Parsed(Member(PartsMeaning(p.key), Meaning(p.item.value)), tail)
    decreases p, 0
  {
    var value := Spelled(p.item.value) + (p.item.after + tail);
    var colon := ":" + (p.before + value);
    assert (p.colon + ":")[0] == (p.colon + colon)[0];
    StringParses(p.key, p.closed, p.colon + colon);
    BlankTextIsBlank(p.colon);
    SkipBlanks(p.colon, colon);
    assert colon[1..] == p.before + value;
    SpelledHead(p.item.value);
    BlankTextIsBlank(p.before);
    SkipBlanks(p.before, value);
    assert tail == [tail[0]] + tail[1..];
    EndsEarly(p.item.value, p.item.after, tail[0], tail[1..]);
    ValueParses(p.item.value, p.item.after + tail);
    BlankTextIsBlank(p.item.after);
    SkipBlanks(p.item.after, tail);
  }

  lemma {:induction false} PairsParse(pairs: seq<Pair>, done: seq<Member>, s: string)
    requires pairs != [] && PairsOk(pairs)
    ensures ParseMembers(PairsText(pairs) + s, done) == Parsed(Object(done + PairsMeaning(pairs)), s)
    decreases pairs, 0
  {
    var p, tail := pairs[0], PairTail(pairs) + s;
    var m := Member(PartsMeaning(p.key), Meaning(p.item.value));
    PairSplits(pairs, s);
    PairParses(p, '}', |pairs| == 1, tail);
    if |pairs| == 1 {
      assert tail == "}" + s;
      MembersEnd(PairsText(pairs) + s, m, s, done);
      assert PairsMeaning(pairs) == [m];
    } else {
      var next := PairsText(pairs[1..]) + s;
      Regroup(",", p.item.next + PairsText(pairs[1..]), s);
      Regroup(p.item.next, PairsText(pairs[1..]), s);
      BlankTextIsBlank(p.item.next);
      MembersGoOn(PairsText(pairs) + s, m, p.item.next, next, done);
      PairsParse(pairs[1..], done + [m], s);
      Regroup(done, [m], PairsMeaning(pairs[1..]));
    }
  }

  // ----- Whatever parses is such a spelling -----

  lemma {:induction false} SkipSpells(s: string) returns (blank: string)
    requires Skip(s).Parsed?
    ensures BlankText(blank) && s == blank + Skip(s).rest
    decreases |s|
  {
    if Blank(s[0]) {
      var more := SkipSpells(s[1..]);
      blank := [s[0]] + more;
    } else {
      blank := "";
    }
  }

  lemma {:induction false} BodySpells(s: string, out: string) returns (ps: seq<Part>, closed: bool)
    requires StringBody(s, out).Parsed?
    ensures PartsOk(ps) && StringEnds(closed, StringBody(s, out).rest)
    ensures StringBody(s, out).value == out + PartsMeaning(ps)
    ensures s == PartsText(ps) + ((if closed then "\"" else "") + StringBody(s, out).rest)
    decreases |s|
  {
    if s == "" || s[0] <= 31 as char {
      ps, closed := [], false;
    } else if s[0] == '\"' {
      ps, closed := [], true;
    } else {
      var p: Part := if s[0] != '\\' then Raw(s[0]) else if s[1] == 'u' then Uni(s[2..6]) else Esc(s[1]);
      var n := |PartText(p)|;
      PartSpells(s, p);
      PartParses(p, s[n..], out);
      var more, end := BodySpells(s[n..], out + PartMeaning(p));
      ps, closed := [p] + more, end;
      assert ps[1..] == more;
      Regroup(PartText(p), PartsText(more), (if closed then "\"" else "") + StringBody(s, out).rest);
      Regroup(out, PartMeaning(p), PartsMeaning(more));
    }
  }

  /** The first part of a string body that goes on. */
  lemma PartSpells(s: string, p: Part)
    requires s != "" && s[0] > 31 as char && s[0] != '\"'
    requires s[0] == '\\' ==> |s| > 1 && (s[1] == 'u' ==> HexQuad(s[2..]))
    requires p == if s[0] != '\\' then Raw(s[0]) else if s[1] == 'u' then Uni(s[2..6]) else Esc(s[1])
    ensures PartOk(p) && |PartText(p)| <= |s| && s == PartText(p) + s[|PartText(p)|..]
  {
    if s[0] == '\\' && s[1] == 'u' {
      assert s[2..][..4] == s[2..6];
      SameQuad(s[2..], s[2..6]);
    }
  }

  lemma {:induction false} DigitsSpell(s: string, n: int) returns (digits: string)
    ensures (forall i :: 0 <= i < |digits| ==> IsDigit(digits[i])) && Delimited(ScanDigits(s, n).rest)
    ensures s == digits + ScanDigits(s, n).rest && ScanDigits(s, n).value == Fold(digits, n)
    decreases |s|
  {
    if s != "" && IsDigit(s[0]) {
      var more := DigitsSpell(s[1..], n * 10 + DigitValue(s[0]));
      digits := [s[0]] + more;
      assert digits[1..] == more;
    } else {
      digits := "";
    }
  }

  lemma {:induction false} TailSpells(t: string) returns (digits: string)
    ensures digits != "" ==> digits[0] != '0'
    ensures forall i :: 0 <= i < |digits| ==> IsDigit(digits[i])
    ensures var s := Tail(t).rest; s != "" ==> if digits != "" then !IsDigit(s[0]) else !('1' <= s[0] <= '9')
    ensures Tail(t) == Parsed(Number(Wrap32(Fold(digits, 0))), Tail(t).rest) && t == digits + Tail(t).rest
    ensures digits == "" ==> Tail(t).rest == t
  {
    if t != "" && '1' <= t[0] <= '9' {
      digits := DigitsSpell(t, 0);
      assert digits != "" && digits[0] == t[0];
    } else {
      digits := "";
      assert Wrap32(Fold(digits, 0)) == 0;
    }
  }

  lemma {:induction false} NumSpells(s: string) returns (sp: Spelling)
    requires s != "" && (s[0] == '-' || IsDigit(s[0]))
    ensures sp.Num? && Ok(sp) && Ends(sp, ParseNumber(s).rest)
    ensures s == Spelled(sp) + ParseNumber(s).rest && ParseNumber(s).value == Meaning(sp)
  {
    NumberTail(s);
    var minus := s[0] == '-';
    var u := if minus then s[1..] else s;
    var zero, digits := UnsignedSpells(u);
    sp := Num(minus, zero, digits);
    NumText(minus, zero, digits, Unsigned(u).rest);
    if minus {
      assert s == "-" + u;
    } else {
      assert s == u;
    }
  }

  lemma {:induction false} UnsignedSpells(u: string) returns (zero: bool, digits: string)
    ensures digits != "" ==> digits[0] != '0'
    ensures forall i :: 0 <= i < |digits| ==> IsDigit(digits[i])
    ensures Ends(Num(false, zero, digits), Unsigned(u).rest)
    ensures Unsigned(u) == Parsed(Number(Wrap32(Fold(digits, 0))), Unsigned(u).rest)
    ensures u == (if zero then "0" else "") + digits + Unsigned(u).rest
    ensures u != "" && IsDigit(u[0]) ==> zero || digits != ""
  {
    zero := u != "" && u[0] == '0';
    if zero {
      digits := TailSpells(u[1..]);
      assert Unsigned(u) == Tail(u[1..]);
      Regroup("0", digits, Tail(u[1..]).rest);
      assert u == "0" + u[1..];
    } else {
      digits := TailSpells(u);
      assert Unsigned(u) == Tail(u);
      assert "" + digits == digits;
    }
  }

  lemma {:induction false} ValueSpells(s: string) returns (sp: Spelling)
    requires ParseValue(s).Parsed?
    ensures Ok(sp) && Ends(sp, ParseValue(s).rest)
    ensures s == Spelled(sp) + ParseValue(s).rest && ParseValue(s).value == Meaning(sp)
    decreases |s|, 1
  {
    if "null" <= s {
      sp := Word(Null);
    } else if "false" <= s {
      sp := Word(False);
    } else if "true" <= s {
      sp := Word(True);
    } else if s[0] == '\"' {
      var ps, closed := StringSpells(s);
      sp := Str(ps, closed);
    } else if s[0] == '-' || IsDigit(s[0]) {
      sp := NumSpells(s);
    } else if s[0] == '[' {
      sp := ArraySpells(s);
    } else {
      sp := ObjectSpells(s);
    }
  }

  lemma StringSpells(s: string) returns (ps: seq<Part>, closed: bool)
    requires ParseString(s).Parsed?
    ensures PartsOk(ps) && StringEnds(closed, ParseString(s).rest)
    ensures s == StringText(ps, closed) + ParseString(s).rest && ParseString(s).value == PartsMeaning(ps)
  {
    ps, closed := BodySpells(s[1..], "");
    var end, rest := if closed then "\"" else "", ParseString(s).rest;
    assert s == "\"" + s[1..];
    Regroup(PartsText(ps), end, rest);
    Regroup("\"", PartsText(ps) + end, rest);
    assert "" + PartsMeaning(ps) == PartsMeaning(ps);
  }

  lemma {:induction false} ArraySpells(s: string) returns (sp: Spelling)
    requires s != "" && s[0] == '[' && ParseArray(s).Parsed?
    ensures sp.Arr? && Ok(sp) && s == Spelled(sp) + ParseArray(s).rest && ParseArray(s).value == Meaning(sp)
    decreases |s|, 0
  {
    var open := SkipSpells(s[1..]);
    var t, rest := Skip(s[1..]).rest, ParseArray(s).rest;
    var items := [];
    if t[0] == ']' {
      assert t == "]" + rest;
    } else {
      items := ItemsSpell(t, []);
      assert [] + ItemsMeaning(items) == ItemsMeaning(items);
    }
    sp := Arr(open, items);
    assert s == "[" + s[1..];
    ArrText(open, items, rest);
  }

  lemma {:induction false} ItemsSpell(s: string, done: seq<Json>) returns (items: seq<Item>)
    requires ParseItems(s, done).Parsed?
    ensures items != [] && ItemsOk(items) && s == ItemsText(items) + ParseItems(s, done).rest
    ensures ParseItems(s, done).value == Array(done + ItemsMeaning(items))
    decreases |s|, 2
  {
    var v := ValueSpells(s);
    var behind, rest := ParseValue(s).rest, ParseItems(s, done).rest;
    var after := SkipSpells(behind);
    var t := Skip(behind).rest;
    assert t == [t[0]] + t[1..];
    EndsEarly(v, after, t[0], t[1..]);
    if t[0] == ',' {
      var next := SkipSpells(t[1..]);
      var more := ItemsSpell(Skip(t[1..]).rest, done + [ParseValue(s).value]);
      items := [Item(v, after, next)] + more;
      assert items[1..] == more && ItemOk(items[0], ']', false);
      Regroup(next, ItemsText(more), rest);
      Regroup(",", next + ItemsText(more), rest);
      ItemSplits(items, rest);
      Regroup(done, [Meaning(v)], ItemsMeaning(more));
    } else {
      items := [Item(v, after, "")];
      assert items[1..] == [] && ItemOk(items[0], ']', true);
      ItemSplits(items, rest);
      assert ItemsMeaning(items) == [Meaning(v)];
    }
  }

  lemma {:induction false} ObjectSpells(s: string) returns (sp: Spelling)
    requires s != "" && s[0] == '{' && ParseObject(s).Parsed?
    ensures sp.Obj? && Ok(sp) && s == Spelled(sp) + ParseObject(s).rest && ParseObject(s).value == Meaning(sp)
    decreases |s|, 0
  {
    var open := SkipSpells(s[1..]);
    var t, rest := Skip(s[1..]).rest, ParseObject(s).rest;
    assert s == "{" + (open + t);
    if t[0] == '}' {
      assert t == PairsText([]) + rest;
      ObjText(open, [], rest);
      sp := Obj(open, []);
    } else {
      var pairs := PairsSpell(t, []);
      assert [] + PairsMeaning(pairs) == PairsMeaning(pairs);
      ObjText(open, pairs, rest);
      sp := Obj(open, pairs);
    }
  }

  lemma {:induction false} KeySpells(s: string) returns (key: seq<Part>, closed: bool, colon: string, t: string)
    requires ParseMember(s).Parsed?
    ensures PartsOk(key) && BlankText(colon) && StringEnds(closed, colon + ":")
    ensures s == StringText(key, closed) + (colon + (":" + t))
    ensures var name := ParseString(s); name.Parsed? && PartsMeaning(key) == name.value
    ensures var name := ParseString(s); Skip(name.rest).Parsed? && Skip(name.rest).rest != "" && Skip(name.rest).rest[1..] == t
  {
    key, closed := StringSpells(s);
    var afterKey := ParseString(s).rest;
    colon := SkipSpells(afterKey);
    var rest := Skip(afterKey).rest;
    t := rest[1..];
    assert rest == ":" + t;
    assert (colon + ":")[0] == (colon + rest)[0];
  }

  lemma {:induction false} PairSpells(s: string) returns (p: Pair)
    requires ParseMember(s).Parsed?
    ensures PartsOk(p.key) && BlankText(p.colon) && BlankText(p.before) && StringEnds(p.closed, p.colon + ":")
    ensures Ok(p.item.value) && BlankText(p.item.after) && p.item.next == "" && Ends(p.item.value, p.item.after + ParseMember(s).rest)
    ensures s == StringText(p.key, p.closed) + (p.colon + (":" + (p.before + (Spelled(p.item.value) + (p.item.after + ParseMember(s).rest)))))
    ensures ParseMember(s).value == Member(PartsMeaning(p.key), Meaning(p.item.value))
    decreases |s|, 2
  {
    var key, closed, colon, t := KeySpells(s);
    var before := SkipSpells(t);
    var u := Skip(t).rest;
    var v := ValueSpells(u);
    var after := SkipSpells(ParseValue(u).rest);
    p := Pair(key, closed, colon, before, Item(v, after, ""));
    var rest := ParseMember(s).rest;
    Regroup(before, Spelled(v), after + rest);
    assert u == Spelled(v) + (after + rest);
    assert t == before + (Spelled(v) + (after + rest));
  }

  lemma {:induction false} PairsSpell(s: string, done: seq<Member>) returns (pairs: seq<Pair>)
    requires ParseMembers(s, done).Parsed?
    ensures pairs != [] && PairsOk(pairs) && s == PairsText(pairs) + ParseMembers(s, done).rest
    ensures ParseMembers(s, done).value == Object(done + PairsMeaning(pairs))
    decreases |s|, 3
  {
    var p := PairSpells(s);
    var m, t, rest := ParseMember(s).value, ParseMember(s).rest, ParseMembers(s, done).rest;
    assert t == [t[0]] + t[1..];
    EndsEarly(p.item.value, p.item.after, t[0], t[1..]);
    if t[0] == ',' {
      var next := SkipSpells(t[1..]);
      var more := PairsSpell(Skip(t[1..]).rest, done + [m]);
      var first := p.(item := p.item.(next := next));
      pairs := [first] + more;
      assert pairs[1..] == more && ItemOk(first.item, '}', false);
      Regroup(next, PairsText(more), rest);
      Regroup(",", next + PairsText(more), rest);
      PairSplits(pairs, rest);
      Regroup(done, [m], PairsMeaning(more));
    } else {
      pairs := [p];
      assert pairs[1..] == [] && ItemOk(p.item, '}', true);
      PairSplits(pairs, rest);
      assert PairsMeaning(pairs) == [m];
    }
  }

  /** The parser takes exactly these texts: a text parses to `v` and leaves `s` if and only if
      it is some blanks and a spelling of `v` with `s` behind it. */
  lemma ParsesIff(text: string, v: Json, s: string)
    ensures ParseText(text) == Parsed(v, s) <==>
            exists blank, sp :: BlankText(blank) && Ok(sp) && Ends(sp, s) && Meaning(sp) == v && text == blank + (Spelled(sp) + s)
  {
    if ParseText(text) == Parsed(v, s) {
      var blank := SkipSpells(text);
      var sp := ValueSpells(Skip(text).rest);
      assert text == blank + (Spelled(sp) + s);
    }
    if blank, sp :| BlankText(blank) && Ok(sp) && Ends(sp, s) && Meaning(sp) == v && text == blank + (Spelled(sp) + s) {
      BlankTextIsBlank(blank);
      SpelledHead(sp);
      SkipBlanks(blank, Spelled(sp) + s);
      ValueParses(sp, s);
    }
  }

  // ----- Codes -----

  /** A 32-bit int is the number with that range that differs by a multiple of 2^32. */
  lemma Wrap32Meaning(n: int)
    ensures -2147483648 <= Wrap32(n) <= 2147483647
    ensures exists k :: n - Wrap32(n) == k * 4294967296
  {
    var q := (n + 2147483648) / 4294967296;
    assert n - Wrap32(n) == q * 4294967296;
  }

  lemma HexMeaning(d: nat)
    requires d < 16
    ensures HexValue(if d < 10 then (48 + d) as char else (87 + d) as char) == d
    ensures HexValue(if d < 10 then (48 + d) as char else (55 + d) as char) == d
  {
  }

  /** Nothing else counts as a hexadecimal digit. */
  lemma NoHexMeaning(c: char)
    ensures HexValue(c) >= 0 <==> 48 <= c as int <= 57 || 65 <= c as int <= 70 || 97 <= c as int <= 102
  {
  }

  lemma QuadMeaning(hex: string)
    requires |hex| == 4 && HexQuad(hex)
    ensures QuadValue(hex) == ((HexValue(hex[0]) * 16 + HexValue(hex[1])) * 16 + HexValue(hex[2])) * 16 + HexValue(hex[3])
  {
  }

  /** The code point that one, two or three bytes stand for. */
  function Decoded(bytes: string): int {
    match |bytes|
    case 1 => bytes[0] as int
    case 2 => (bytes[0] as int - 192) * 64 + (bytes[1] as int - 128)
    case 3 => ((bytes[0] as int - 224) * 64 + (bytes[1] as int - 128)) * 64 + (bytes[2] as int - 128)
    case _ => -1
  }

  /** An escape is written as the shortest of them that holds its code point. */
  lemma Utf8Meaning(u: nat)
    requires u < 65536
    ensures Decoded(Utf8(u)) == u
    ensures |Utf8(u)| == if u < 128 then 1 else if u < 2048 then 2 else 3
    ensures forall i :: 0 < i < |Utf8(u)| ==> 128 <= Utf8(u)[i] as int < 192
  {
  }

  /** For instance, any blanks may stand around the item of a one-item array. */
  lemma BlanksAroundAnItem(before: string, sp: Spelling, after: string, s: string)
    requires BlankText(before) && BlankText(after) && Ok(sp) && Ends(sp, after + "]")
    ensures ParseText("[" + (before + (Spelled(sp) + (after + ("]" + s))))) == Parsed(Array([Meaning(sp)]), s)
  {
    var items := [Item(sp, after, "")];
    assert items[1..] == [] && ItemOk(items[0], ']', true);
    assert ItemsMeaning(items) == [Meaning(sp)];
    var text := "[" + (before + (Spelled(sp) + (after + ("]" + s))));
    ItemSplits(items, s);
    ArrText(before, items, s);
    ValueParses(Arr(before, items), s);
    SkipBlanks("", text);
    assert "" + text == text;
  }
}
