/** Host and URL patterns: the node list that patterns compile to and the
    backtracking matcher over it.

    Texts and patterns are C strings, so the end of a `string` plays the role of
    the terminating NUL. */
module Regex {
  import opened Sequences

  // ----- Compiled patterns -----

  /** One node of the compiled list. `List` holds the expanded members of a class. */
  datatype Node = Char(c: char) | Dot | Begin | End | Star | Plus | Ques | List(members: string, negated: bool)

  /** Whether a node consumes character `c`. `^` and `$` nodes stand for themselves
      wherever the matcher does not treat them as anchors. */
  predicate Fits(n: Node, c: char) {
    match n
    case Char(x) => c == x
    case Dot => true
    case Begin => c == '^'
    case End => c == '$'
    case List(members, negated) => (c in members) != negated
    case _ => false
  }

  ghost predicate AllFit(n: Node, w: string) {
    forall i :: 0 <= i < |w| ==> Fits(n, w[i])
  }

  /** What a node list accepts at the front of `t`; no order of trying repetitions is implied. */
  ghost predicate Accepts(ns: seq<Node>, t: string)
    decreases |ns|
  {
    if ns == [] then true
    else if ns == [End] then t == ""
    else if |ns| > 1 && ns[1].Star? then AcceptsRun(ns[0], ns[2..], t, 0, |t|)
    else if |ns| > 1 && ns[1].Plus? then AcceptsRun(ns[0], ns[2..], t, 1, |t|)
    else if |ns| > 1 && ns[1].Ques? then AcceptsRun(ns[0], ns[2..], t, 0, 1)
    else t != "" && Fits(ns[0], t[0]) && Accepts(ns[1..], t[1..])
  }

  /** Between `lo` and `hi` characters fit `n`, and `rest` accepts what follows them. */
  ghost predicate AcceptsRun(n: Node, rest: seq<Node>, t: string, lo: nat, hi: nat)
    decreases |rest| + 1
  {
    exists k :: lo <= k <= hi && k <= |t| && AllFit(n, t[..k]) && Accepts(rest, t[k..])
  }

  // ----- The matcher -----

  method InList(c: char, n: Node) returns (r: bool)
    ensures r <==> n.List? && Fits(n, c)
  {
    if !n.List? {
      return false;
    }
    var i := 0;
    while i < |n.members| && c != n.members[i]
      invariant 0 <= i <= |n.members|
      invariant c !in n.members[..i]
    {
      i := i + 1;
    }
    assert n.members == n.members[..i] + n.members[i..];
    return (i < |n.members|) != n.negated;
  }

  method MatchOne(n: Node, c: char) returns (r: bool)
    ensures r == Fits(n, c)
  {
    var listed := InList(c, n);
    return n.Dot? || listed || (n.Char? && c == n.c) || (n.Begin? && c == '^') || (n.End? && c == '$');
  }

  /** Lazy star: try the rest first, then give the repeated node one more character. */
  method MatchStar(cur: Node, rest: seq<Node>, text: string, longest: bool) returns (r: bool)
    ensures r == AcceptsRun(cur, rest, text, 0, |text|)
    decreases |rest| + 1
  {
    var i := 0;
    while true
      invariant 0 <= i <= |text| && AllFit(cur, text[..i])
      invariant forall k :: 0 <= k < i ==> !Accepts(rest, text[k..])
      decreases |text| - i
    {
      var here := MatchHere(rest, text[i..], longest);
      if here {
        return true;
      }
      if i == |text| {
        return false;
      }
      var one := MatchOne(cur, text[i]);
      if !one {
        BlockedRun(cur, text, i);
        return false;
      }
      i := i + 1;
    }
  }

  /** Greedy star: run as far as the node fits, then back off. */
  method MatchStarLongest(cur: Node, rest: seq<Node>, text: string, longest: bool) returns (r: bool)
    ensures r == AcceptsRun(cur, rest, text, 0, |text|)
    decreases |rest| + 1
  {
    var end := LongestRun(cur, text);
    var i: int := end;
    while i >= 0
      invariant -1 <= i <= end
      invariant forall k :: i < k <= end ==> !Accepts(rest, text[k..])
    {
      var here := MatchHere(rest, text[i..], longest);
      if here {
        return true;
      }
      i := i - 1;
    }
    return false;
  }

  method MatchPlus(cur: Node, rest: seq<Node>, text: string, longest: bool) returns (r: bool)
    ensures r == AcceptsRun(cur, rest, text, 1, |text|)
    decreases |rest| + 1
  {
    var i := 0;
    while i < |text|
      invariant 0 <= i <= |text| && AllFit(cur, text[..i])
      invariant forall k :: 1 <= k <= i ==> !Accepts(rest, text[k..])
    {
      var one := MatchOne(cur, text[i]);
      if !one {
        BlockedRun(cur, text, i);
        return false;
      }
      i := i + 1;
      var here := MatchHere(rest, text[i..], longest);
      if here {
        return true;
      }
    }
    return false;
  }

  method MatchPlusLongest(cur: Node, rest: seq<Node>, text: string, longest: bool) returns (r: bool)
    ensures r == AcceptsRun(cur, rest, text, 1, |text|)
    decreases |rest| + 1
  {
    var end := LongestRun(cur, text);
    var i := end;
    while i > 0
      invariant 0 <= i <= end
      invariant forall k :: i < k <= end ==> !Accepts(rest, text[k..])
    {
      var here := MatchHere(rest, text[i..], longest);
      if here {
        return true;
      }
      i := i - 1;
    }
    return false;
  }

  method MatchQues(cur: Node, rest: seq<Node>, text: string, longest: bool) returns (r: bool)
    ensures r == AcceptsRun(cur, rest, text, 0, 1)
    decreases |rest| + 1
  {
    var i: int := 0;
    if text != "" {
      var one := MatchOne(cur, text[0]);
      if one {
        i := 1;
      }
    }
    var end := i;
    while i >= 0
      invariant -1 <= i <= end
      invariant forall k :: i < k <= end ==> !Accepts(rest, text[k..])
    {
      var here := MatchHere(rest, text[i..], longest);
      if here {
        assert AllFit(cur, text[..i]);
        return true;
      }
      i := i - 1;
    }
    return false;
  }

  /** The end of the longest run of characters that fit `cur`. */
  method LongestRun(cur: Node, text: string) returns (end: nat)
    ensures end <= |text|
    ensures forall k :: 0 <= k <= |text| ==> (AllFit(cur, text[..k]) <==> k <= end)
  {
    end := 0;
    while end < |text|
      invariant 0 <= end <= |text| && AllFit(cur, text[..end])
    {
      var one := MatchOne(cur, text[end]);
      if !one {
        BlockedRun(cur, text, end);
        return;
      }
      end := end + 1;
    }
  }

  /** No run of fitting characters can reach past one that does not fit. */
  lemma BlockedRun(cur: Node, text: string, i: nat)
    requires i < |text| && AllFit(cur, text[..i]) && !Fits(cur, text[i])
    ensures forall k :: 0 <= k <= |text| ==> (AllFit(cur, text[..k]) <==> k <= i)
  {
  }

  /** Matches the list at the front of the text. The answer does not depend on
      `longest`, so the lazy and the greedy matchers agree under every nesting. */
  method MatchHere(ns: seq<Node>, text: string, longest: bool) returns (r: bool)
    ensures r == Accepts(ns, text)
    decreases |ns|
  {
    if ns == [] {
      return true;
    }
    if ns[0].End? && |ns| == 1 {
      return text == "";
    }
    if |ns| > 1 && ns[1].Star? {
      if longest {
        r := MatchStarLongest(ns[0], ns[2..], text, longest);
      } else {
        r := MatchStar(ns[0], ns[2..], text, longest);
      }
    } else if |ns| > 1 && ns[1].Plus? {
      if longest {
        r := MatchPlusLongest(ns[0], ns[2..], text, longest);
      } else {
        r := MatchPlus(ns[0], ns[2..], text, longest);
      }
    } else if |ns| > 1 && ns[1].Ques? {
      r := MatchQues(ns[0], ns[2..], text, longest);
    } else {
      if text == "" {
        return false;
      }
      var one := MatchOne(ns[0], text[0]);
      if !one {
        return false;
      }
      r := MatchHere(ns[1..], text[1..], longest);
    }
  }

  // ----- Compilation -----

  /** `Null` is a rejected pattern; `Undefined` is a pattern on which the compiler
      leaves its buffers (a trailing backslash, a class range that runs off the end,
      descends or has a non-ASCII bound, or a class of more than 255 members). */
  datatype Compiled = Program(nodes: seq<Node>) | Null | Undefined

  datatype ClassScan = Closed(members: string, rest: string) | BadClass | LostClass

  const CLASS_BUFFER := 256

  function RangeChars(lo: char, hi: char): (r: string)
    requires lo <= hi && hi as int < 128
  {
    seq(hi as int - lo as int, k requires 0 <= k < hi as int - lo as int => (lo as int + 1 + k) as char)
  }

  /** Scans a class body from `s`, where `prev` is the pattern character just before `s`. */
  function ScanClass(s: string, prev: char, ccl: string): (r: ClassScan)
    ensures r.Closed? ==> |r.rest| < |s|
    decreases |s|
  {
    if |ccl| >= CLASS_BUFFER then LostClass
    else if s == "" then BadClass
    else if s[0] == ']' then Closed(ccl, s[1..])
    else if s[0] != '-' then ScanClass(s[1..], s[0], ccl + [s[0]])
    else if ccl == "" || (|s| > 1 && s[1] == ']') then BadClass
    else if |s| == 1 || s[1] < prev || s[1] as int >= 128 then LostClass
    else ScanClass(s[2..], s[1], ccl + RangeChars(prev, s[1]))
  }

  const DIGITS := "0123456789"

  function EscapeNode(c: char): Node {
    if c == 'd' then List(DIGITS, false)
    else if c == 'D' then List(DIGITS, true)
    else Char(c)
  }

  function SimpleNode(c: char): Node {
    if c == '.' then Dot
    else if c == '^' then Begin
    else if c == '$' then End
    else if c == '*' then Star
    else if c == '+' then Plus
    else if c == '?' then Ques
    else Char(c)
  }

  function Prepend(ns: seq<Node>, c: Compiled): Compiled {
    if c.Program? then Program(ns + c.nodes) else c
  }

  /** One turn of the compiler's loop: the node at the front of `s` and what is left. */
  datatype Turn = Got(node: Node, rest: string) | Stop(why: Compiled)

  function FirstNode(s: string): (r: Turn)
    requires s != ""
    ensures r.Got? ==> |r.rest| < |s|
    ensures r.Stop? ==> !r.why.Program?
  {
    if s[0] == '\\' then
      if |s| == 1 then Stop(Undefined) else Got(EscapeNode(s[1]), s[2..])
    else if s[0] == '[' then
      var negated := |s| > 1 && s[1] == '^';
      match ScanClass(if negated then s[2..] else s[1..], if negated then '^' else '[', "")
      case Closed(members, rest) => Got(List(members, negated), rest)
      case BadClass => Stop(Null)
      case LostClass => Stop(Undefined)
    else Got(SimpleNode(s[0]), s[1..])
  }

  /** The nodes that the pattern suffix `s` compiles to. */
  function NodesFrom(s: string): Compiled
    decreases |s|
  {
    if s == "" then Program([])
    else match FirstNode(s)
      case Got(node, rest) => Prepend([node], NodesFrom(rest))
      case Stop(why) => why
  }

  /** A pattern that compiles to no node at all yields the null list. */
  function CompileSpec(p: string): Compiled {
    if NodesFrom(p) == Program([]) then Null else NodesFrom(p)
  }

  method CreateList(lo: char, hi: char) returns (r: string)
    requires lo <= hi && hi as int < 128
    ensures r == RangeChars(lo, hi)
  {
    r := "";
    var next := lo as int + 1;
    while next <= hi as int
      invariant lo as int + 1 <= next <= hi as int + 1
      invariant r == RangeChars(lo, hi)[..next - lo as int - 1]
    {
      r := r + [next as char];
      next := next + 1;
    }
  }

  method CompileClass(s: string, first: char) returns (r: ClassScan)
    ensures r == ScanClass(s, first, "")
  {
    var i := 0;
    var prev := first;
    var ccl := "";
    while i < |s| && s[i] != ']' && |ccl| < CLASS_BUFFER
      invariant 0 <= i <= |s|
      invariant ScanClass(s, first, "") == ScanClass(s[i..], prev, ccl)
      decreases |s| - i
    {
      if s[i] != '-' {
        ccl := ccl + [s[i]];
        prev := s[i];
        i := i + 1;
      } else if ccl == "" || (i + 1 < |s| && s[i + 1] == ']') {
        return BadClass;
      } else if i + 1 == |s| || s[i + 1] < prev || s[i + 1] as int >= 128 {
        return LostClass;
      } else {
        var range := CreateList(prev, s[i + 1]);
        ccl := ccl + range;
        prev := s[i + 1];
        i := i + 2;
      }
    }
    if |ccl| >= CLASS_BUFFER {
      return LostClass;
    }
    if i == |s| {
      return BadClass;
    }
    return Closed(ccl, s[i + 1..]);
  }

  method CompileFirst(s: string) returns (r: Turn)
    requires s != ""
    ensures r == FirstNode(s)
  {
    if s[0] == '\\' {
      return if |s| == 1 then Stop(Undefined) else Got(EscapeNode(s[1]), s[2..]);
    }
    if s[0] == '[' {
      var negated := |s| > 1 && s[1] == '^';
      var scan := CompileClass(if negated then s[2..] else s[1..], if negated then '^' else '[');
      return match scan
        case Closed(members, rest) => Got(List(members, negated), rest)
        case BadClass => Stop(Null)
        case LostClass => Stop(Undefined);
    }
    return Got(SimpleNode(s[0]), s[1..]);
  }

  lemma PrependAll(a: seq<Node>, b: seq<Node>, c: Compiled)
    ensures Prepend(a, Prepend(b, c)) == Prepend(a + b, c)
  {
  }

  method Compile(p: string) returns (r: Compiled)
    ensures r == CompileSpec(p)
  {
    var s := p;
    var nodes: seq<Node> := [];
    while s != ""
      invariant NodesFrom(p) == Prepend(nodes, NodesFrom(s))
      decreases |s|
    {
      var turn := CompileFirst(s);
      if turn.Stop? {
        return turn.why;
      }
      PrependAll(nodes, [turn.node], NodesFrom(turn.rest));
      nodes, s := nodes + [turn.node], turn.rest;
    }
    return if nodes == [] then Null else Program(nodes);
  }

  /** Search: at every suffix, or only at the whole text after a leading `^`. */
  ghost predicate Searches(ns: seq<Node>, t: string)
    requires ns != []
  {
    if ns[0].Begin? then Accepts(ns[1..], t)
    else exists i :: 0 <= i <= |t| && Accepts(ns, t[i..])
  }

  /** `regexp_match`: 1 matched, 0 not matched, -1 no compiled pattern. */
  method RegexpMatch(p: string, text: string, longest: bool) returns (ret: int)
    requires !CompileSpec(p).Undefined?
    ensures CompileSpec(p).Null? ==> ret == -1
    ensures CompileSpec(p).Program? ==> ret == if Searches(CompileSpec(p).nodes, text) then 1 else 0
  {
    var compiled := Compile(p);
    if compiled.Null? {
      return -1;
    }
    var ns := compiled.nodes;
    if ns[0].Begin? {
      var whole := MatchHere(ns[1..], text, longest);
      return if whole then 1 else 0;
    }
    var i := 0;
    while i <= |text|
      invariant 0 <= i <= |text| + 1
      invariant forall k :: 0 <= k < i ==> !Accepts(ns, text[k..])
    {
      var here := MatchHere(ns, text[i..], longest);
      if here {
        return 1;
      }
      i := i + 1;
    }
    return 0;
  }

  /** Both strategies give one answer, on every pattern the compiler accepts. */
  method MatchBothWays(p: string, text: string) returns (lazy: int, greedy: int)
    requires !CompileSpec(p).Undefined?
    ensures lazy == greedy
  {
    lazy := RegexpMatch(p, text, false);
    greedy := RegexpMatch(p, text, true);
  }
}
