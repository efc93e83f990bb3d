/** The language that a pattern denotes, and that matching the compiled pattern decides it. */
module RegexLanguage {
  import opened Regex
  import opened Sequences

  // ----- Patterns and the language they denote -----

  datatype ClassItem = One(c: char) | Range(lo: char, ends: seq<char>)
  datatype Atom = Lit(c: char) | Escape(c: char) | Any | Digit | NonDigit | Class(items: seq<ClassItem>, negated: bool)
  datatype Quant = Once | ZeroOrMore | OneOrMore | Optional
  datatype Piece = Piece(atom: Atom, quant: Quant)
  datatype Pattern = Pattern(fromStart: bool, pieces: seq<Piece>, toEnd: bool)

  /** Where a range stops; one with several ends goes on from each end to the next. */
  function LastEnd(lo: char, ends: seq<char>): char {
    if ends == [] then lo else ends[|ends| - 1]
  }

  predicate InItem(it: ClassItem, c: char) {
    match it
    case One(x) => c == x
    case Range(lo, ends) => lo <= c <= LastEnd(lo, ends)
  }

  ghost predicate InSome(items: seq<ClassItem>, c: char) {
    exists i :: 0 <= i < |items| && InItem(items[i], c)
  }

  ghost predicate AtomMatches(a: Atom, c: char) {
    match a
    case Lit(x) => c == x
    case Escape(x) => c == x
    case Any => true
    case Digit => '0' <= c <= '9'
    case NonDigit => !('0' <= c <= '9')
    case Class(items, negated) => InSome(items, c) != negated
  }

  /** The words that one quantified atom denotes. */
  ghost predicate PieceDenotes(p: Piece, w: string) {
    && (forall i :: 0 <= i < |w| ==> AtomMatches(p.atom, w[i]))
    && match p.quant
       case Once => |w| == 1
       case ZeroOrMore => true
       case OneOrMore => |w| >= 1
       case Optional => |w| <= 1
  }

  /** Concatenation of the languages of the pieces. */
  ghost predicate Denotes(ps: seq<Piece>, w: string)
    decreases |ps|
  {
    if ps == [] then w == ""
    else exists k :: 0 <= k <= |w| && PieceDenotes(ps[0], w[..k]) && Denotes(ps[1..], w[k..])
  }

  /** Some stretch of the text is in the language, tied to either end as the anchors say. */
  ghost predicate Matches(p: Pattern, t: string) {
    exists i, n :: 0 <= i <= n <= |t| && (p.fromStart ==> i == 0) && (p.toEnd ==> n == |t|) && Denotes(p.pieces, t[i..n])
  }

  // ----- Concrete syntax -----

  function RenderEnds(ends: seq<char>): string {
    if ends == [] then "" else ['-', ends[0]] + RenderEnds(ends[1..])
  }

  function RenderItem(it: ClassItem): string {
    match it
    case One(c) => [c]
    case Range(lo, ends) => [lo] + RenderEnds(ends)
  }

  function RenderItems(items: seq<ClassItem>): string {
    if items == [] then "" else RenderItem(items[0]) + RenderItems(items[1..])
  }

  function ClassOpening(negated: bool): string {
    if negated then "[^" else "["
  }

  function RenderAtom(a: Atom): string {
    match a
    case Lit(c) => [c]
    case Escape(c) => ['\\', c]
    case Any => "."
    case Digit => "\\d"
    case NonDigit => "\\D"
    case Class(items, negated) => ClassOpening(negated) + (RenderItems(items) + "]")
  }

  function RenderQuant(q: Quant): string {
    match q
    case Once => ""
    case ZeroOrMore => "*"
    case OneOrMore => "+"
    case Optional => "?"
  }

  function RenderPieces(ps: seq<Piece>): string {
    if ps == [] then "" else RenderAtom(ps[0].atom) + RenderQuant(ps[0].quant) + RenderPieces(ps[1..])
  }

  function Render(p: Pattern): string {
    (if p.fromStart then "^" else "") + RenderPieces(p.pieces) + (if p.toEnd then "$" else "")
  }

  function EndMembers(lo: char, ends: seq<char>): string
    requires EndsOk(lo, ends)
    decreases |ends|
  {
    if ends == [] then "" else RangeChars(lo, ends[0]) + EndMembers(ends[0], ends[1..])
  }

  function ItemMembers(it: ClassItem): string
    requires ItemOk(it)
  {
    match it
    case One(c) => [c]
    case Range(lo, ends) => [lo] + EndMembers(lo, ends)
  }

  function Members(items: seq<ClassItem>): string
    requires ItemsOk(items)
  {
    if items == [] then "" else ItemMembers(items[0]) + Members(items[1..])
  }

  predicate Operator(c: char) {
    c == '\\' || c == '.' || c == '*' || c == '+' || c == '?' || c == '['
  }

  /** The ends ascend. */
  predicate EndsOk(lo: char, ends: seq<char>)
    decreases |ends|
  {
    ends != [] ==> ends[0] != ']' && lo <= ends[0] && ends[0] as int < 128 && EndsOk(ends[0], ends[1..])
  }

  predicate ItemOk(it: ClassItem) {
    match it
    case One(c) => c != ']' && c != '-'
    case Range(lo, ends) => lo != ']' && lo != '-' && ends != [] && EndsOk(lo, ends)
  }

  predicate ItemsOk(items: seq<ClassItem>) {
    forall i :: 0 <= i < |items| ==> ItemOk(items[i])
  }

  predicate AtomOk(a: Atom) {
    match a
    case Lit(c) => !Operator(c)
    case Escape(c) => c != 'd' && c != 'D'
    case Class(items, negated) =>
      && ItemsOk(items)
      && |Members(items)| < CLASS_BUFFER
      && (!negated && items != [] ==> items[0] != One('^') && !(items[0].Range? && items[0].lo == '^'))
    case _ => true
  }

  predicate PiecesOk(ps: seq<Piece>) {
    forall i :: 0 <= i < |ps| ==> AtomOk(ps[i].atom)
  }

  /** Quantifiers follow atoms, ranges ascend, classes are closed and fit their
      buffer; a literal `^` is not first and a literal `$` is not last. */
  predicate WellFormed(p: Pattern) {
    && PiecesOk(p.pieces)
    && (p.fromStart || p.toEnd || p.pieces != [])
    && (p.pieces != [] && !p.fromStart ==> p.pieces[0].atom != Lit('^'))
    && (p.pieces != [] && !p.toEnd ==> p.pieces[|p.pieces| - 1] != Piece(Lit('$'), Once))
  }

  function AtomNode(a: Atom): Node
    requires AtomOk(a)
  {
    match a
    case Lit(c) => SimpleNode(c)
    case Escape(c) => Char(c)
    case Any => Dot
    case Digit => List(DIGITS, false)
    case NonDigit => List(DIGITS, true)
    case Class(items, negated) => List(Members(items), negated)
  }

  function QuantNodes(q: Quant): seq<Node> {
    match q
    case Once => []
    case ZeroOrMore => [Star]
    case OneOrMore => [Plus]
    case Optional => [Ques]
  }

  function PieceNodes(ps: seq<Piece>): seq<Node>
    requires PiecesOk(ps)
  {
    if ps == [] then [] else [AtomNode(ps[0].atom)] + QuantNodes(ps[0].quant) + PieceNodes(ps[1..])
  }

  function BodyNodes(ps: seq<Piece>, toEnd: bool): seq<Node>
    requires PiecesOk(ps)
  {
    PieceNodes(ps) + if toEnd then [End] else []
  }

  // ----- Compiling a well-formed pattern -----

  lemma ScanSingle(c: char, tail: string, prev: char, ccl: string)
    requires c != ']' && c != '-' && |ccl| < CLASS_BUFFER
    ensures ScanClass([c] + tail, prev, ccl) == ScanClass(tail, c, ccl + [c])
  {
  }

  lemma {:induction false} ScanEnds(lo: char, ends: seq<char>, tail: string, ccl: string)
    requires EndsOk(lo, ends) && ccl != "" && |ccl| + |EndMembers(lo, ends)| < CLASS_BUFFER
    ensures ScanClass(RenderEnds(ends) + tail, lo, ccl) == ScanClass(tail, LastEnd(lo, ends), ccl + EndMembers(lo, ends))
    decreases |ends|
  {
    if ends == [] {
      assert RenderEnds(ends) + tail == tail && ccl + EndMembers(lo, ends) == ccl;
    } else {
      var rest := RenderEnds(ends[1..]) + tail;
      var text := ['-', ends[0]] + rest;
      Regroup(['-', ends[0]], RenderEnds(ends[1..]), tail);
      assert text[2..] == rest;
      Regroup(ccl, RangeChars(lo, ends[0]), EndMembers(ends[0], ends[1..]));
      ScanEnds(ends[0], ends[1..], tail, ccl + RangeChars(lo, ends[0]));
    }
  }

  /** The character in front of what follows an item. */
  function LastOf(it: ClassItem): char {
    match it
    case One(c) => c
    case Range(lo, ends) => LastEnd(lo, ends)
  }

  lemma ScanItem(it: ClassItem, tail: string, prev: char, ccl: string)
    requires ItemOk(it) && |ccl| + |ItemMembers(it)| < CLASS_BUFFER
    ensures ScanClass(RenderItem(it) + tail, prev, ccl) == ScanClass(tail, LastOf(it), ccl + ItemMembers(it))
  {
    match it
    case One(c) => ScanSingle(c, tail, prev, ccl);
    case Range(lo, ends) =>
      Regroup([lo], RenderEnds(ends), tail);
      ScanSingle(lo, RenderEnds(ends) + tail, prev, ccl);
      ScanEnds(lo, ends, tail, ccl + [lo]);
      Regroup(ccl, [lo], EndMembers(lo, ends));
  }

  lemma {:induction false} ScanRenderedItems(items: seq<ClassItem>, s: string, prev: char, ccl: string)
    requires ItemsOk(items)
    requires |ccl| + |Members(items)| < CLASS_BUFFER
    ensures ScanClass(RenderItems(items) + "]" + s, prev, ccl) == Closed(ccl + Members(items), s)
    decreases |items|
  {
    if items == [] {
      assert (RenderItems(items) + "]" + s)[1..] == s;
      assert ccl + Members(items) == ccl;
    } else {
      var it := items[0];
      var tail := RenderItems(items[1..]) + "]" + s;
      Regroup(RenderItem(it), RenderItems(items[1..]), "]");
      Regroup(RenderItem(it), RenderItems(items[1..]) + "]", s);
      ScanItem(it, tail, prev, ccl);
      ScanRenderedItems(items[1..], s, LastOf(it), ccl + ItemMembers(it));
      Regroup(ccl, ItemMembers(it), Members(items[1..]));
    }
  }

  lemma ScanAfterOpening(negated: bool, body: string, members: string, s: string)
    requires body != "" && (!negated ==> body[0] != '^')
    requires ScanClass(body, if negated then '^' else '[', "") == Closed(members, s)
    ensures FirstNode(ClassOpening(negated) + body) == Got(List(members, negated), s)
  {
  }

  lemma CompileClassAtom(items: seq<ClassItem>, negated: bool, s: string)
    requires AtomOk(Class(items, negated))
    ensures FirstNode(RenderAtom(Class(items, negated)) + s) == Got(List(Members(items), negated), s)
  {
    var body := RenderItems(items) + "]" + s;
    ScanRenderedItems(items, s, if negated then '^' else '[', "");
    assert "" + Members(items) == Members(items);
    assert body[0] == if items == [] then ']' else if items[0].One? then items[0].c else items[0].lo;
    ScanAfterOpening(negated, body, Members(items), s);
    Regroup(ClassOpening(negated), RenderItems(items) + "]", s);
  }

  lemma CompileAtom(a: Atom, s: string)
    requires AtomOk(a)
    ensures RenderAtom(a) != "" && NodesFrom(RenderAtom(a) + s) == Prepend([AtomNode(a)], NodesFrom(s))
  {
    assert FirstNode(RenderAtom(a) + s) == Got(AtomNode(a), s) by {
      if a.Class? {
        CompileClassAtom(a.items, a.negated, s);
      } else if a.Lit? || a.Any? {
        assert (RenderAtom(a) + s)[1..] == s;
      } else {
        assert (RenderAtom(a) + s)[2..] == s;
      }
    }
  }

  lemma CompileQuant(q: Quant, s: string)
    ensures NodesFrom(RenderQuant(q) + s) == Prepend(QuantNodes(q), NodesFrom(s))
  {
    if q.Once? {
      assert RenderQuant(q) + s == s;
    } else {
      assert (RenderQuant(q) + s)[1..] == s;
    }
  }

  lemma {:induction false} CompilePieces(ps: seq<Piece>, s: string)
    requires PiecesOk(ps)
    ensures NodesFrom(RenderPieces(ps) + s) == Prepend(PieceNodes(ps), NodesFrom(s))
    decreases |ps|
  {
    if ps == [] {
      assert RenderPieces(ps) + s == s;
    } else {
      var atom, quant := RenderAtom(ps[0].atom), RenderQuant(ps[0].quant);
      var tail := RenderPieces(ps[1..]) + s;
      var node, qs, rest := AtomNode(ps[0].atom), QuantNodes(ps[0].quant), PieceNodes(ps[1..]);
      calc {
        NodesFrom(RenderPieces(ps) + s);
        { Regroup(atom + quant, RenderPieces(ps[1..]), s); Regroup(atom, quant, tail); }
        NodesFrom(atom + (quant + tail));
        { CompileAtom(ps[0].atom, quant + tail); }
        Prepend([node], NodesFrom(quant + tail));
        { CompileQuant(ps[0].quant, tail); }
        Prepend([node], Prepend(qs, NodesFrom(tail)));
        { CompilePieces(ps[1..], s); }
        Prepend([node], Prepend(qs, Prepend(rest, NodesFrom(s))));
        { PrependAll(qs, rest, NodesFrom(s)); PrependAll([node], qs + rest, NodesFrom(s)); }
        Prepend([node] + (qs + rest), NodesFrom(s));
        { Regroup([node], qs, rest); }
        Prepend(PieceNodes(ps), NodesFrom(s));
      }
    }
  }

  lemma CompileBody(ps: seq<Piece>, toEnd: bool)
    requires PiecesOk(ps)
    ensures NodesFrom(RenderPieces(ps) + (if toEnd then "$" else "")) == Program(BodyNodes(ps, toEnd))
  {
    EndNodes(toEnd);
    CompilePieces(ps, if toEnd then "$" else "");
  }

  /** A well-formed pattern compiles to exactly the nodes of its pieces and anchors. */
  lemma CompileWellFormed(p: Pattern)
    requires WellFormed(p)
    ensures CompileSpec(Render(p)) == Program((if p.fromStart then [Begin] else []) + BodyNodes(p.pieces, p.toEnd))
  {
    var body := RenderPieces(p.pieces) + (if p.toEnd then "$" else "");
    var nodes := BodyNodes(p.pieces, p.toEnd);
    assert NodesFrom(body) == Program(nodes) by {
      CompileBody(p.pieces, p.toEnd);
    }
    if p.fromStart {
      assert Render(p) == "^" + body;
      BeginNode(body);
    } else {
      assert Render(p) == body;
      assert [] + nodes == nodes;
    }
  }

  lemma EndNodes(toEnd: bool)
    ensures NodesFrom(if toEnd then "$" else "") == Program(if toEnd then [End] else [])
  {
  }

  lemma BeginNode(body: string)
    ensures NodesFrom("^" + body) == Prepend([Begin], NodesFrom(body))
  {
  }

  // ----- The matcher decides the language -----

  lemma RangeCharsMeaning(lo: char, hi: char, c: char)
    requires lo <= hi && hi as int < 128
    ensures c in RangeChars(lo, hi) <==> lo < c <= hi
  {
    if lo < c <= hi {
      assert RangeChars(lo, hi)[c as int - lo as int - 1] == c;
    }
  }

  lemma {:induction false} EndMembersMeaning(lo: char, ends: seq<char>, c: char)
    requires EndsOk(lo, ends)
    ensures lo <= LastEnd(lo, ends)
    ensures c in EndMembers(lo, ends) <==> lo < c <= LastEnd(lo, ends)
    decreases |ends|
  {
    if ends != [] {
      RangeCharsMeaning(lo, ends[0], c);
      EndMembersMeaning(ends[0], ends[1..], c);
      assert LastEnd(lo, ends) == LastEnd(ends[0], ends[1..]);
    }
  }

  lemma ItemMeaning(it: ClassItem, c: char)
    requires ItemOk(it)
    ensures c in ItemMembers(it) <==> InItem(it, c)
  {
    if it.Range? {
      EndMembersMeaning(it.lo, it.ends, c);
    }
  }

  lemma InSomeRest(items: seq<ClassItem>, c: char)
    requires items != []
    ensures InSome(items, c) <==> InItem(items[0], c) || InSome(items[1..], c)
  {
    if i :| 0 <= i < |items| && InItem(items[i], c) {
      assert i > 0 ==> items[1..][i - 1] == items[i];
    }
    if i :| 0 <= i < |items[1..]| && InItem(items[1..][i], c) {
      assert items[i + 1] == items[1..][i];
    }
  }

  lemma {:induction false} MembersMeaning(items: seq<ClassItem>, c: char)
    requires ItemsOk(items)
    ensures c in Members(items) <==> InSome(items, c)
    decreases |items|
  {
    if items != [] {
      MembersMeaning(items[1..], c);
      ItemMeaning(items[0], c);
      InSomeRest(items, c);
      assert c in Members(items) <==> c in ItemMembers(items[0]) || c in Members(items[1..]);
    }
  }

  lemma AtomMeaning(a: Atom, c: char)
    requires AtomOk(a)
    ensures Fits(AtomNode(a), c) <==> AtomMatches(a, c)
  {
    match a
    case Class(items, negated) => MembersMeaning(items, c);
    case Digit => DigitsMeaning(c);
    case NonDigit => DigitsMeaning(c);
    case _ =>
  }

  lemma DigitsMeaning(c: char)
    ensures c in DIGITS <==> '0' <= c <= '9'
  {
  }

  lemma AtomRunMeaning(a: Atom, w: string)
    requires AtomOk(a)
    ensures AllFit(AtomNode(a), w) <==> forall i :: 0 <= i < |w| ==> AtomMatches(a, w[i])
  {
    forall i | 0 <= i < |w|
      ensures Fits(AtomNode(a), w[i]) <==> AtomMatches(a, w[i])
    {
      AtomMeaning(a, w[i]);
    }
  }

  /** `t` starts with a word of the language, and the word is all of `t` when `toEnd`. */
  ghost predicate StartsWith(ps: seq<Piece>, t: string, toEnd: bool) {
    exists n :: 0 <= n <= |t| && (toEnd ==> n == |t|) && Denotes(ps, t[..n])
  }

  lemma StartsWithStep(ps: seq<Piece>, t: string, toEnd: bool)
    requires ps != []
    ensures StartsWith(ps, t, toEnd) <==>
            exists k :: 0 <= k <= |t| && PieceDenotes(ps[0], t[..k]) && StartsWith(ps[1..], t[k..], toEnd)
  {
    if StartsWith(ps, t, toEnd) {
      var n :| 0 <= n <= |t| && (toEnd ==> n == |t|) && Denotes(ps, t[..n]);
      var k :| 0 <= k <= n && PieceDenotes(ps[0], t[..n][..k]) && Denotes(ps[1..], t[..n][k..]);
      assert t[..n][..k] == t[..k] && t[..n][k..] == t[k..][..n - k];
      assert StartsWith(ps[1..], t[k..], toEnd);
    }
    if k :| 0 <= k <= |t| && PieceDenotes(ps[0], t[..k]) && StartsWith(ps[1..], t[k..], toEnd) {
      var m :| 0 <= m <= |t| - k && (toEnd ==> m == |t| - k) && Denotes(ps[1..], t[k..][..m]);
      assert t[..k + m][..k] == t[..k] && t[..k + m][k..] == t[k..][..m];
      assert Denotes(ps, t[..k + m]);
    }
  }

  ghost predicate EndsPlainly(ps: seq<Piece>, toEnd: bool) {
    ps != [] && !toEnd ==> ps[|ps| - 1] != Piece(Lit('$'), Once)
  }

  /** The node list of a pattern accepts a text iff the text starts with a word of the language. */
  lemma {:induction false} AcceptsMeaning(ps: seq<Piece>, t: string, toEnd: bool)
    requires PiecesOk(ps)
    requires EndsPlainly(ps, toEnd)
    ensures Accepts(BodyNodes(ps, toEnd), t) <==> StartsWith(ps, t, toEnd)
    decreases |ps|
  {
    if ps == [] {
      assert BodyNodes(ps, toEnd) == if toEnd then [End] else [];
      assert t[..|t|] == t && t[..0] == "";
    } else {
      StartsWithStep(ps, t, toEnd);
      if ps[0].quant.Once? {
        OnceNodes(ps, t, toEnd);
        OnceDenotes(ps, t, toEnd);
        if t != "" {
          AcceptsMeaning(ps[1..], t[1..], toEnd);
        }
      } else {
        forall k | 0 <= k <= |t|
          ensures Accepts(BodyNodes(ps[1..], toEnd), t[k..]) <==> StartsWith(ps[1..], t[k..], toEnd)
        {
          AcceptsMeaning(ps[1..], t[k..], toEnd);
        }
        RepeatNodes(ps, t, toEnd);
        RepeatDenotes(ps[0], BodyNodes(ps[1..], toEnd), ps[1..], t, toEnd);
      }
    }
  }

  function Least(q: Quant): nat {
    if q.OneOrMore? then 1 else 0
  }

  function Most(q: Quant, n: nat): nat {
    if q.Optional? then 1 else n
  }

  lemma RepeatNodes(ps: seq<Piece>, t: string, toEnd: bool)
    requires ps != [] && !ps[0].quant.Once? && PiecesOk(ps)
    ensures Accepts(BodyNodes(ps, toEnd), t) <==>
            AcceptsRun(AtomNode(ps[0].atom), BodyNodes(ps[1..], toEnd), t, Least(ps[0].quant), Most(ps[0].quant, |t|))
  {
    var rest, node, ns := BodyNodes(ps[1..], toEnd), AtomNode(ps[0].atom), BodyNodes(ps, toEnd);
    assert ns == [node] + QuantNodes(ps[0].quant) + rest;
    assert ns[0] == node && ns[1] == QuantNodes(ps[0].quant)[0] && ns[2..] == rest;
  }

  lemma RepeatDenotes(p: Piece, rest: seq<Node>, more: seq<Piece>, t: string, toEnd: bool)
    requires !p.quant.Once? && AtomOk(p.atom)
    requires forall k :: 0 <= k <= |t| ==> (Accepts(rest, t[k..]) <==> StartsWith(more, t[k..], toEnd))
    ensures AcceptsRun(AtomNode(p.atom), rest, t, Least(p.quant), Most(p.quant, |t|)) <==>
            exists k :: 0 <= k <= |t| && PieceDenotes(p, t[..k]) && StartsWith(more, t[k..], toEnd)
  {
    forall k | 0 <= k <= |t|
      ensures PieceDenotes(p, t[..k]) <==> AllFit(AtomNode(p.atom), t[..k]) && Least(p.quant) <= k <= Most(p.quant, |t|)
    {
      AtomRunMeaning(p.atom, t[..k]);
    }
  }

  lemma NotAQuantifier(ps: seq<Piece>, toEnd: bool)
    requires PiecesOk(ps)
    ensures var ns := BodyNodes(ps, toEnd);
            ns != [] ==> !ns[0].Star? && !ns[0].Plus? && !ns[0].Ques?
  {
  }

  lemma AcceptsOne(n: Node, rest: seq<Node>, t: string)
    requires rest == [] ==> n != End
    requires rest != [] ==> !rest[0].Star? && !rest[0].Plus? && !rest[0].Ques?
    ensures Accepts([n] + rest, t) <==> t != "" && Fits(n, t[0]) && Accepts(rest, t[1..])
  {
    var ns := [n] + rest;
    assert ns[1..] == rest && ns[0] == n;
    assert [End][0] == End;
    assert rest != [] ==> ns[1] == rest[0];
  }

  lemma OnceNodes(ps: seq<Piece>, t: string, toEnd: bool)
    requires ps != [] && ps[0].quant.Once? && PiecesOk(ps) && EndsPlainly(ps, toEnd)
    ensures Accepts(BodyNodes(ps, toEnd), t) <==>
            t != "" && AtomMatches(ps[0].atom, t[0]) && Accepts(BodyNodes(ps[1..], toEnd), t[1..])
  {
    var rest, node := BodyNodes(ps[1..], toEnd), AtomNode(ps[0].atom);
    assert BodyNodes(ps, toEnd) == [node] + rest;
    NotAQuantifier(ps[1..], toEnd);
    if rest == [] {
      assert |ps| == 1 && !toEnd && ps[0].atom != Lit('$') && node != End;
    }
    AcceptsOne(node, rest, t);
    if t != "" {
      AtomMeaning(ps[0].atom, t[0]);
    }
  }

  lemma OnceDenotes(ps: seq<Piece>, t: string, toEnd: bool)
    requires ps != [] && ps[0].quant.Once?
    ensures (exists k :: 0 <= k <= |t| && PieceDenotes(ps[0], t[..k]) && StartsWith(ps[1..], t[k..], toEnd)) <==>
            t != "" && AtomMatches(ps[0].atom, t[0]) && StartsWith(ps[1..], t[1..], toEnd)
  {
    if t != "" {
      assert t[..1] == [t[0]];
      assert PieceDenotes(ps[0], t[..1]) <==> AtomMatches(ps[0].atom, t[0]);
    }
  }

  /** Main theorem: for every well-formed pattern and every text, a search with the
      compiled pattern succeeds exactly when the pattern's language says so. */
  lemma MatchDecidesLanguage(p: Pattern, t: string)
    requires WellFormed(p)
    ensures CompileSpec(Render(p)).Program?
    ensures Searches(CompileSpec(Render(p)).nodes, t) <==> Matches(p, t)
  {
    CompileWellFormed(p);
    var ns := CompileSpec(Render(p)).nodes;
    var body := BodyNodes(p.pieces, p.toEnd);
    if p.fromStart {
      assert ns[1..] == body;
      AcceptsMeaning(p.pieces, t, p.toEnd);
      if StartsWith(p.pieces, t, p.toEnd) {
        var n :| 0 <= n <= |t| && (p.toEnd ==> n == |t|) && Denotes(p.pieces, t[..n]);
        assert t[0..n] == t[..n];
      }
      if Matches(p, t) {
        var i, n :| 0 <= i <= n <= |t| && (p.fromStart ==> i == 0) && (p.toEnd ==> n == |t|) && Denotes(p.pieces, t[i..n]);
        assert t[i..n] == t[..n];
      }
    } else {
      assert ns == body;
      NotBeginFirst(p);
      SearchEverySuffix(p, t);
    }
  }

  lemma NotBeginFirst(p: Pattern)
    requires WellFormed(p) && !p.fromStart
    ensures var ns := BodyNodes(p.pieces, p.toEnd); ns != [] && !ns[0].Begin?
  {
  }

  lemma SearchEverySuffix(p: Pattern, t: string)
    requires WellFormed(p) && !p.fromStart
    ensures (exists i :: 0 <= i <= |t| && Accepts(BodyNodes(p.pieces, p.toEnd), t[i..])) <==> Matches(p, t)
  {
    forall i | 0 <= i <= |t|
      ensures Accepts(BodyNodes(p.pieces, p.toEnd), t[i..]) <==> StartsWith(p.pieces, t[i..], p.toEnd)
    {
      AcceptsMeaning(p.pieces, t[i..], p.toEnd);
    }
    if i :| 0 <= i <= |t| && StartsWith(p.pieces, t[i..], p.toEnd) {
      var m :| 0 <= m <= |t| - i && (p.toEnd ==> m == |t| - i) && Denotes(p.pieces, t[i..][..m]);
      assert t[i..][..m] == t[i..i + m];
    }
    if Matches(p, t) {
      var i, n :| 0 <= i <= n <= |t| && (p.fromStart ==> i == 0) && (p.toEnd ==> n == |t|) && Denotes(p.pieces, t[i..n]);
      assert t[i..][..n - i] == t[i..n];
      assert StartsWith(p.pieces, t[i..], p.toEnd);
    }
  }

  // ----- Plain patterns -----

  predicate Plain(p: string) {
    p != "" && forall i :: 0 <= i < |p| ==> !Operator(p[i]) && p[i] != '^' && p[i] != '$'
  }

  function Literals(p: string): (r: seq<Piece>)
    ensures |r| == |p| && forall i :: 0 <= i < |r| ==> r[i] == Piece(Lit(p[i]), Once)
  {
    seq(|p|, i requires 0 <= i < |p| => Piece(Lit(p[i]), Once))
  }

  lemma {:induction false} RenderLiterals(p: string)
    ensures RenderPieces(Literals(p)) == p
    decreases |p|
  {
    if p != "" {
      RenderLiterals(p[1..]);
      assert Literals(p)[1..] == Literals(p[1..]);
    }
  }

  lemma {:induction false} LiteralsDenote(p: string, w: string)
    ensures Denotes(Literals(p), w) <==> w == p
    decreases |p|
  {
    if p != "" {
      var ps := Literals(p);
      assert ps[1..] == Literals(p[1..]);
      assert p == [p[0]] + p[1..];
      if Denotes(ps, w) {
        var k :| 0 <= k <= |w| && PieceDenotes(ps[0], w[..k]) && Denotes(ps[1..], w[k..]);
        LiteralsDenote(p[1..], w[k..]);
        assert w[..k] == [p[0]];
        assert w == w[..k] + w[k..];
      }
      if w == p {
        LiteralsDenote(p[1..], w[1..]);
        assert PieceDenotes(ps[0], w[..1]);
      }
    }
  }

  predicate OccursAt(p: string, t: string, i: nat) {
    i + |p| <= |t| && t[i..i + |p|] == p
  }

  lemma PlainMatches(p: string, t: string)
    ensures Matches(Pattern(false, Literals(p), false), t) <==> exists i :: 0 <= i <= |t| && OccursAt(p, t, i)
  {
    var pat := Pattern(false, Literals(p), false);
    if Matches(pat, t) {
      var i, n :| 0 <= i <= n <= |t| && Denotes(pat.pieces, t[i..n]);
      LiteralsDenote(p, t[i..n]);
      assert OccursAt(p, t, i);
    }
    if i :| 0 <= i <= |t| && OccursAt(p, t, i) {
      LiteralsDenote(p, t[i..i + |p|]);
    }
  }

  /** A pattern without metacharacters matches exactly the texts that contain it. */
  lemma PlainPatternIsSubstring(p: string, t: string)
    requires Plain(p)
    ensures CompileSpec(p).Program?
    ensures Searches(CompileSpec(p).nodes, t) <==> exists i :: 0 <= i <= |t| && OccursAt(p, t, i)
  {
    var pat := Pattern(false, Literals(p), false);
    assert Render(pat) == p by {
      RenderLiterals(p);
    }
    MatchDecidesLanguage(pat, t);
    PlainMatches(p, t);
  }

  // ----- Patterns that are refused -----

  lemma {:induction false} NeverClosed(s: string, prev: char, ccl: string)
    requires forall i :: 0 <= i < |s| ==> s[i] != ']'
    ensures !ScanClass(s, prev, ccl).Closed?
    decreases |s|
  {
    if s != "" && |ccl| < CLASS_BUFFER {
      if s[0] != '-' {
        NeverClosed(s[1..], s[0], ccl + [s[0]]);
      } else if ccl != "" && |s| > 1 && prev <= s[1] && s[1] as int < 128 {
        NeverClosed(s[2..], s[1], ccl + RangeChars(prev, s[1]));
      }
    }
  }

  /** The empty pattern, a class without an end, and a class that starts or ends with a dash
      never compile. */
  lemma {:induction false} RefusedPatterns(w: string)
    ensures CompileSpec("").Null?
    ensures (forall i :: 0 <= i < |w| ==> w[i] != ']') ==> !CompileSpec("[" + w).Program?
    ensures CompileSpec("[-" + w).Null?
  {
    if forall i :: 0 <= i < |w| ==> w[i] != ']' {
      var text := "[" + w;
      assert text[1..] == w;
      var negated := |text| > 1 && text[1] == '^';
      NeverClosed(if negated then text[2..] else w, if negated then '^' else '[', "");
    }
    var dash := "[-" + w;
    assert dash[1..][0] == '-';
  }
}
