/** The integer-only JSON printer, parser and minifier.

    Texts are C strings: the end of a `string` is the terminating NUL. Parsers
    take the text from the current pointer on and return what is left of it. */
module Json {
  import opened Texts

  datatype Json =
    | Null
    | True
    | False
    | Number(n: int)
    | String(s: string)
    | Array(items: seq<Json>)
    | Object(members: seq<Member>)

  datatype Member = Member(key: string, value: Json)

  const INT_LIMIT := 0x8000_0000

  // ----- Printing -----

  function EscapeChar(c: char): string {
    if c > 31 as char && c != '\"' && c != '\\' then [c]
    else if c == '\\' then "\\\\"
    else if c == '\"' then "\\\""
    else if c == 8 as char then "\\b"
    else if c == 12 as char then "\\f"
    else if c == '\n' then "\\n"
    else if c == '\r' then "\\r"
    else if c == '\t' then "\\t"
    else ""
  }

  function Escape(s: string): string {
    if s == "" then "" else EscapeChar(s[0]) + Escape(s[1..])
  }

  function Quote(s: string): string {
    "\"" + (Escape(s) + "\"")
  }

  function PrintNumber(n: int): string {
    if n < 0 then "-" + Decimal(-n) else Decimal(n)
  }

  function Tabs(d: nat): string {
    seq(d, _ => '\t')
  }

  /** Layout is all that separates the printed form from the minified one. */
  function Layout(pretty: bool, blank: string): string {
    if pretty then blank else ""
  }

  function Render(v: Json, depth: nat, pretty: bool): string
    decreases v, 1
  {
    match v
    case Null => "null"
    case True => "true"
    case False => "false"
    case Number(n) => PrintNumber(n)
    case String(s) => Quote(s)
    case Array(items) => "[" + (RenderItems(items, depth, pretty) + "]")
    case Object(members) =>
      "{" + (Layout(pretty, "\n") + (RenderMembers(members, depth + 1, pretty) + (Layout(pretty, Tabs(depth)) + "}")))
  }

  function RenderItems(items: seq<Json>, depth: nat, pretty: bool): string
    decreases items, 0
  {
    if items == [] then ""
    else Render(items[0], depth + 1, pretty) + RenderMoreItems(items, depth, pretty)
  }

  function RenderMoreItems(items: seq<Json>, depth: nat, pretty: bool): string
    requires items != []
    decreases items, 0, 0
  {
    if |items| == 1 then "" else "," + (Layout(pretty, " ") + RenderItems(items[1..], depth, pretty))
  }

  function RenderMembers(members: seq<Member>, depth: nat, pretty: bool): string
    decreases members, 0
  {
    if members == [] then ""
    else
      Layout(pretty, Tabs(depth)) + (Quote(members[0].key) + (":" + (Layout(pretty, "\t") +
      (Render(members[0].value, depth, pretty) + RenderMoreMembers(members, depth, pretty)))))
  }

  function RenderMoreMembers(members: seq<Member>, depth: nat, pretty: bool): string
    requires members != []
    decreases members, 0, 0
  {
    (if |members| == 1 then "" else ",") + (Layout(pretty, "\n") + RenderMembers(members[1..], depth, pretty))
  }

  /** `cJSON_Print` */
  function Print(v: Json): string {
    Render(v, 0, true)
  }

  // ----- Parsing -----

  predicate Blank(c: char) {
    c <= 32 as char
  }

  /** `skip` stops only at a character above the blank, and NUL is not one. */
  function Skip(s: string): (r: Parse<()>)
    ensures r.Parsed? ==> |r.rest| <= |s| && r.rest != "" && !Blank(r.rest[0])
    ensures !r.Rejected?
  {
    if s == "" then Undefined
    else if Blank(s[0]) then Skip(s[1..])
    else Parsed((), s)
  }

  /** What a 32-bit int keeps of a number. */
  function Wrap32(n: int): int {
    (n + INT_LIMIT) % (2 * INT_LIMIT) - INT_LIMIT
  }

  /** The sign is consumed but does not reach the value. */
  function ParseNumber(s: string): (r: Parse<Json>)
    requires s != "" && (s[0] == '-' || IsDigit(s[0]))
    ensures r.Parsed? && |r.rest| < |s|
  {
    var unsigned := if s[0] == '-' then s[1..] else s;
    var digits := if unsigned != "" && unsigned[0] == '0' then unsigned[1..] else unsigned;
    if digits != "" && '1' <= digits[0] <= '9' then
      var scan := ScanDigits(digits, 0);
      Parsed(Number(Wrap32(scan.value)), scan.rest)
    else Parsed(Number(0), digits)
  }

  function HexValue(c: char): (r: int)
    ensures -1 <= r < 16
  {
    if '0' <= c <= '9' then c as int - '0' as int
    else if 'a' <= c <= 'f' then c as int - 'a' as int + 10
    else if 'A' <= c <= 'F' then c as int - 'A' as int + 10
    else -1
  }

  /** A `\u` escape as UTF-8 bytes; surrogates are encoded one by one. */
  function Utf8(u: nat): string
    requires u < 0x10000
  {
    if u < 0x80 then [u as char]
    else if u < 0x800 then [(0xC0 + u / 64) as char, (0x80 + u % 64) as char]
    else [(0xE0 + u / 4096) as char, (0x80 + u / 64 % 64) as char, (0x80 + u % 64) as char]
  }

  function Unescape(c: char): char {
    if c == 'b' then 8 as char
    else if c == 'f' then 12 as char
    else if c == 'n' then '\n'
    else if c == 'r' then '\r'
    else if c == 't' then '\t'
    else c
  }

  predicate HexQuad(s: string) {
    |s| >= 4 && HexValue(s[0]) >= 0 && HexValue(s[1]) >= 0 && HexValue(s[2]) >= 0 && HexValue(s[3]) >= 0
  }

  function QuadValue(s: string): (u: nat)
    requires HexQuad(s)
    ensures u < 0x10000
  {
    HexValue(s[0]) * 4096 + HexValue(s[1]) * 256 + HexValue(s[2]) * 16 + HexValue(s[3])
  }

  /** The text of a string from just after its opening quote. A control character or
      the end of the text ends the string too. */
  function StringBody(s: string, out: string): (r: Parse<string>)
    ensures r.Parsed? ==> |r.rest| <= |s|
    ensures !r.Rejected?
    decreases |s|
  {
    if s == "" || s[0] <= 31 as char then Parsed(out, s)
    else if s[0] == '\"' then Parsed(out, s[1..])
    else if s[0] != '\\' then StringBody(s[1..], out + [s[0]])
    else if |s| == 1 then Undefined
    else if s[1] == 'u' then
      if HexQuad(s[2..]) then StringBody(s[6..], out + Utf8(QuadValue(s[2..])))
      else Undefined
    else StringBody(s[2..], out + [Unescape(s[1])])
  }

  function ParseString(s: string): (r: Parse<string>)
    ensures r.Parsed? ==> |r.rest| < |s|
  {
    if s == "" || s[0] != '\"' then Rejected else StringBody(s[1..], "")
  }

  function ParseValue(s: string): (r: Parse<Json>)
    ensures r.Parsed? ==> |r.rest| < |s|
    decreases |s|, 1
  {
    if "null" <= s then Parsed(Null, s[4..])
    else if "false" <= s then Parsed(False, s[5..])
    else if "true" <= s then Parsed(True, s[4..])
    else if s == "" then Rejected
    else if s[0] == '\"' then
      match ParseString(s)
      case Parsed(text, rest) => Parsed(String(text), rest)
      case Rejected => Rejected
      case Undefined => Undefined
    else if s[0] == '-' || IsDigit(s[0]) then ParseNumber(s)
    else if s[0] == '[' then ParseArray(s)
    else if s[0] == '{' then ParseObject(s)
    else Rejected
  }

  function ParseArray(s: string): (r: Parse<Json>)
    requires s != "" && s[0] == '['
    ensures r.Parsed? ==> |r.rest| < |s|
    decreases |s|, 0
  {
    match Skip(s[1..])
    case Parsed(_, t) => if t[0] == ']' then Parsed(Array([]), t[1..]) else ParseItems(t, [])
    case Rejected => Rejected
    case Undefined => Undefined
  }

  /** The items of an array from its next item on. */
  function ParseItems(s: string, done: seq<Json>): (r: Parse<Json>)
    ensures r.Parsed? ==> |r.rest| < |s|
    decreases |s|, 2
  {
    match ParseValue(s)
    case Rejected => Rejected
    case Undefined => Undefined
    case Parsed(v, afterValue) =>
      match Skip(afterValue)
      case Rejected => Rejected
      case Undefined => Undefined
      case Parsed(_, t) =>
        if t[0] == ',' then
          match Skip(t[1..])
          case Parsed(_, u) => ParseItems(u, done + [v])
          case Rejected => Rejected
          case Undefined => Undefined
        else if t[0] == ']' then Parsed(Array(done + [v]), t[1..])
        else Rejected
  }

  function ParseObject(s: string): (r: Parse<Json>)
    requires s != "" && s[0] == '{'
    ensures r.Parsed? ==> |r.rest| < |s|
    decreases |s|, 0
  {
    match Skip(s[1..])
    case Parsed(_, t) => if t[0] == '}' then Parsed(Object([]), t[1..]) else ParseMembers(t, [])
    case Rejected => Rejected
    case Undefined => Undefined
  }

  /** One `"key" : value` pair and the blanks after it. */
  function ParseMember(s: string): (r: Parse<Member>)
    ensures r.Parsed? ==> 0 < |r.rest| < |s|
    decreases |s|, 2
  {
    match ParseString(s)
    case Rejected => Rejected
    case Undefined => Undefined
    case Parsed(key, afterKey) =>
      match Skip(afterKey)
      case Rejected => Rejected
      case Undefined => Undefined
      case Parsed(_, t) =>
        if t[0] != ':' then Rejected
        else
          match Skip(t[1..])
          case Rejected => Rejected
          case Undefined => Undefined
          case Parsed(_, u) =>
            match ParseValue(u)
            case Rejected => Rejected
            case Undefined => Undefined
            case Parsed(v, afterValue) =>
              match Skip(afterValue)
              case Rejected => Rejected
              case Undefined => Undefined
              case Parsed(_, w) => Parsed(Member(key, v), w)
  }

  function ParseMembers(s: string, done: seq<Member>): (r: Parse<Json>)
    ensures r.Parsed? ==> |r.rest| < |s|
    decreases |s|, 3
  {
    match ParseMember(s)
    case Rejected => Rejected
    case Undefined => Undefined
    case Parsed(m, t) =>
      if t[0] == ',' then
        match Skip(t[1..])
        case Parsed(_, u) => ParseMembers(u, done + [m])
        case Rejected => Rejected
        case Undefined => Undefined
      else if t[0] == '}' then Parsed(Object(done + [m]), t[1..])
      else Rejected
  }

  /** `cJSON_Parse`; what follows the value is ignored. */
  function ParseText(s: string): Parse<Json> {
    match Skip(s)
    case Parsed(_, t) => ParseValue(t)
    case Rejected => Rejected
    case Undefined => Undefined
  }
}
