/** The printing and parsing code: loops over growing buffers and moving pointers. */
module JsonCode {
  import opened Texts
  import opened Json
  import opened Sequences

  // ----- Printers: each also returns the size of the buffer it allocated -----

  /** Appends `text` and a terminator to a buffer of `size` bytes. */
  method Put(buffer: string, text: string, size: nat) returns (r: string)
    requires |buffer| + |text| + 1 <= size
    ensures r == buffer + text
  {
    r := buffer + text;
  }

  method PrintString(s: string) returns (out: string, size: nat)
    ensures out == Quote(s) && |out| + 1 <= size
  {
    var len := 0;
    for i := 0 to |s|
      invariant len + |Escape(s[i..])| >= |Escape(s)|
    {
      assert s[i..][1..] == s[i + 1..];
      len := len + (if s[i] < 32 as char || s[i] == '\"' || s[i] == '\\' then 2 else 1);
    }
    assert s[|s|..] == "";
    size := len + 3;
    out := Put("", "\"", size);
    ghost var whole := "\"" + Escape(s);
    for i := 0 to |s|
      invariant whole == out + Escape(s[i..])
    {
      assert s[i..][1..] == s[i + 1..];
      ghost var tail := Escape(s[i + 1..]);
      Regroup(out, EscapeChar(s[i]), tail);
      assert |out| + |EscapeChar(s[i])| + |tail| == |whole|;
      out := Put(out, EscapeChar(s[i]), size);
    }
    assert out == whole;
    out := Put(out, "\"", size);
    Regroup("\"", Escape(s), "\"");
  }

  ghost predicate Ints(v: Json) {
    match v
    case Number(n) => -INT_LIMIT <= n < INT_LIMIT
    case Array(items) => forall i :: 0 <= i < |items| ==> Ints(items[i])
    case Object(members) => forall i :: 0 <= i < |members| ==> Ints(members[i].value)
    case _ => true
  }

  ghost predicate NoPercent(s: string) {
    forall i :: 0 <= i < |s| ==> s[i] != '%'
  }

  /** Printed parts go through `sprintf` as its format, so none of them may hold a `%`. */
  ghost predicate FormatFree(v: Json) {
    match v
    case String(s) => NoPercent(s)
    case Array(items) => forall i :: 0 <= i < |items| ==> FormatFree(items[i])
    case Object(members) => forall i :: 0 <= i < |members| ==> NoPercent(members[i].key) && FormatFree(members[i].value)
    case _ => true
  }

  method PrintValue(v: Json, depth: nat) returns (out: string, size: nat)
    requires Ints(v) && (v.String? || FormatFree(v))
    ensures out == Render(v, depth, true) && |out| + 1 <= size
    decreases v, 1
  {
    match v
    case Null => return "null", 5;
    case True => return "true", 5;
    case False => return "false", 6;
    case Number(n) =>
      size := 21;
      assert Pow10(10) == 10_000_000_000;
      DecimalLength(if n < 0 then -n else n, 10);
      out := Put("", PrintNumber(n), size);
    case String(s) => out, size := PrintString(s);
    case Array(items) => out, size := PrintArray(items, depth);
    case Object(members) => out, size := PrintObject(members, depth);
  }

  method PrintArray(items: seq<Json>, depth: nat) returns (out: string, size: nat)
    requires Ints(Array(items)) && FormatFree(Array(items))
    ensures out == Render(Array(items), depth, true) && |out| + 1 <= size
    decreases items, 0
  {
    size := 5;
    out := Put("", "[", size);
    ghost var whole := "[" + RenderItems(items, depth, true);
    for i := 0 to |items|
      invariant whole == out + RenderItems(items[i..], depth, true)
      invariant |out| + 4 <= size
    {
      var ret, _ := PrintValue(items[i], depth + 1);
      size := size + |ret| + 3;
      ItemsStep(items, i, depth, out);
      out := Put(out, ret, size);
      if i + 1 < |items| {
        out := Put(out, ", ", size);
      }
    }
    assert out == whole;
    out := Put(out, "]", size);
    Regroup("[", RenderItems(items, depth, true), "]");
  }

  lemma ItemsStep(items: seq<Json>, i: nat, depth: nat, out: string)
    requires i < |items|
    ensures out + RenderItems(items[i..], depth, true) ==
            out + Render(items[i], depth + 1, true) + (if i + 1 < |items| then ", " else "") + RenderItems(items[i + 1..], depth, true)
  {
  }

  method PutMember(buffer: string, str: string, ret: string, depth: nat, more: bool, size: nat) returns (out: string)
    requires |buffer| + |ret| + |str| + 5 + depth <= size
    ensures out == buffer + Tabs(depth) + str + ":\t" + ret + (if more then "," else "") + "\n"
  {
    out := Put(buffer, Tabs(depth), size);
    out := Put(out, str, size);
    out := Put(out, ":\t", size);
    out := Put(out, ret, size);
    if more {
      out := Put(out, ",", size);
    }
    out := Put(out, "\n", size);
  }

  method PrintObject(members: seq<Member>, depth: nat) returns (out: string, size: nat)
    requires Ints(Object(members)) && FormatFree(Object(members))
    ensures out == Render(Object(members), depth, true) && |out| + 1 <= size
    decreases members, 0
  {
    var inner := depth + 1;
    size := 7 + inner;
    out := Put("", "{\n", size);
    ghost var whole := "{\n" + RenderMembers(members, inner, true);
    for i := 0 to |members|
      invariant whole == out + RenderMembers(members[i..], inner, true)
      invariant |out| + inner + 5 <= size
    {
      var str, _ := PrintString(members[i].key);
      var ret, _ := PrintValue(members[i].value, inner);
      size := size + |ret| + |str| + 4 + inner;
      MembersStep(members, i, inner, out);
      out := PutMember(out, str, ret, inner, i + 1 < |members|, size);
    }
    assert out == whole;
    out := Put(out, Tabs(depth), size);
    out := Put(out, "}", size);
    ObjectText(members, depth);
  }

  lemma ObjectText(members: seq<Member>, depth: nat)
    ensures Render(Object(members), depth, true) == "{\n" + RenderMembers(members, depth + 1, true) + Tabs(depth) + "}"
  {
  }

  lemma MembersStep(members: seq<Member>, i: nat, depth: nat, out: string)
    requires i < |members|
    ensures out + RenderMembers(members[i..], depth, true) ==
            out + Tabs(depth) + Quote(members[i].key) + ":\t" + Render(members[i].value, depth, true) +
            (if i + 1 < |members| then "," else "") + "\n" + RenderMembers(members[i + 1..], depth, true)
  {
  }

  // ----- Parsers -----

  method SkipText(text: string) returns (r: Parse<()>)
    ensures r == Skip(text)
  {
    var s := text;
    while s != "" && Blank(s[0])
      invariant Skip(s) == Skip(text)
      decreases |s|
    {
      s := s[1..];
    }
    return if s == "" then Undefined else Parsed((), s);
  }

  method ReadNumber(text: string) returns (r: Parse<Json>)
    requires text != "" && (text[0] == '-' || IsDigit(text[0]))
    ensures r == ParseNumber(text)
  {
    var s := if text[0] == '-' then text[1..] else text;
    s := if s != "" && s[0] == '0' then s[1..] else s;
    var n := 0;
    if s != "" && '1' <= s[0] <= '9' {
      ghost var digits := s;
      while s != "" && IsDigit(s[0])
        invariant ScanDigits(s, n) == ScanDigits(digits, 0)
        decreases |s|
      {
        s, n := s[1..], n * 10 + DigitValue(s[0]);
      }
    }
    return Parsed(Number(Wrap32(n)), s);
  }

  method ReadString(text: string) returns (r: Parse<string>)
    ensures r == ParseString(text)
  {
    if text == "" || text[0] != '\"' {
      return Rejected;
    }
    var s, out := text[1..], "";
    while s != "" && s[0] > 31 as char && s[0] != '\"'
      invariant StringBody(s, out) == StringBody(text[1..], "")
      decreases |s|
    {
      if s[0] != '\\' {
        s, out := s[1..], out + [s[0]];
      } else if |s| == 1 {
        return Undefined;
      } else if s[1] == 'u' {
        if !HexQuad(s[2..]) {
          return Undefined;
        }
        s, out := s[6..], out + Utf8(QuadValue(s[2..]));
      } else {
        s, out := s[2..], out + [Unescape(s[1])];
      }
    }
    return Parsed(out, if s != "" && s[0] == '\"' then s[1..] else s);
  }

  method ReadValue(text: string) returns (r: Parse<Json>)
    ensures r == ParseValue(text)
    decreases |text|, 1
  {
    if "null" <= text {
      return Parsed(Null, text[4..]);
    } else if "false" <= text {
      return Parsed(False, text[5..]);
    } else if "true" <= text {
      return Parsed(True, text[4..]);
    } else if text == "" {
      return Rejected;
    } else if text[0] == '\"' {
      var s := ReadString(text);
      return match s
        case Parsed(t, rest) => Parsed(String(t), rest)
        case Rejected => Rejected
        case Undefined => Undefined;
    } else if text[0] == '-' || IsDigit(text[0]) {
      r := ReadNumber(text);
    } else if text[0] == '[' {
      r := ReadArray(text);
    } else if text[0] == '{' {
      r := ReadObject(text);
    } else {
      return Rejected;
    }
  }

  method ReadArray(text: string) returns (r: Parse<Json>)
    requires text != "" && text[0] == '['
    ensures r == ParseArray(text)
    decreases |text|, 0
  {
    var skip := SkipText(text[1..]);
    if skip.Undefined? {
      return Undefined;
    }
    var s, items := skip.rest, [];
    if s[0] == ']' {
      return Parsed(Array([]), s[1..]);
    }
    while true
      invariant |s| < |text|
      invariant ParseItems(s, items) == ParseArray(text)
      decreases |s|
    {
      var v := ReadValue(s);
      if !v.Parsed? {
        return if v.Rejected? then Rejected else Undefined;
      }
      skip := SkipText(v.rest);
      if skip.Undefined? {
        return Undefined;
      }
      items := items + [v.value];
      s := skip.rest;
      if s[0] != ',' {
        return if s[0] == ']' then Parsed(Array(items), s[1..]) else Rejected;
      }
      skip := SkipText(s[1..]);
      if skip.Undefined? {
        return Undefined;
      }
      s := skip.rest;
    }
  }

  method ReadMember(text: string) returns (r: Parse<Member>)
    ensures r == ParseMember(text)
    decreases |text|, 2
  {
    var key := ReadString(text);
    if !key.Parsed? {
      return if key.Rejected? then Rejected else Undefined;
    }
    var skip := SkipText(key.rest);
    if skip.Undefined? {
      return Undefined;
    }
    if skip.rest[0] != ':' {
      return Rejected;
    }
    skip := SkipText(skip.rest[1..]);
    if skip.Undefined? {
      return Undefined;
    }
    var v := ReadValue(skip.rest);
    if !v.Parsed? {
      return if v.Rejected? then Rejected else Undefined;
    }
    skip := SkipText(v.rest);
    if skip.Undefined? {
      return Undefined;
    }
    return Parsed(Member(key.value, v.value), skip.rest);
  }

  method ReadObject(text: string) returns (r: Parse<Json>)
    requires text != "" && text[0] == '{'
    ensures r == ParseObject(text)
    decreases |text|, 0
  {
    var skip := SkipText(text[1..]);
    if skip.Undefined? {
      return Undefined;
    }
    var s, members := skip.rest, [];
    if s[0] == '}' {
      return Parsed(Object([]), s[1..]);
    }
    while true
      invariant |s| < |text|
      invariant ParseMembers(s, members) == ParseObject(text)
      decreases |s|
    {
      var m := ReadMember(s);
      if !m.Parsed? {
        return if m.Rejected? then Rejected else Undefined;
      }
      members := members + [m.value];
      s := m.rest;
      if s[0] != ',' {
        return if s[0] == '}' then Parsed(Object(members), s[1..]) else Rejected;
      }
      skip := SkipText(s[1..]);
      if skip.Undefined? {
        return Undefined;
      }
      s := skip.rest;
    }
  }
}
