/** The AND/OR policy evaluator: three mutually recursive routines that evaluate a token list while parsing it.
    Reading past the end of the list raises IndexError, which the caller turns into a refusal. */
module PolicyParser {

  /** A token is one of the four strings "(", ")", "and", "or", or any other word. */
  datatype Token = LPar | RPar | AndOp | OrOp | Word(text: string)

  type Tokens = seq<Token>

  datatype Parse = Parsed(value: bool, pos: nat) | IndexError

  predicate Holds(token: Token) {
    token == Word("True")
  }

  predicate TokenAt(tokens: Tokens, pos: nat, token: Token) {
    pos < |tokens| && tokens[pos] == token
  }

  // ---- What the routines compute --------------------------------------------------------------------

  /** Every success consumes at least one token and stays within the list. */
  function ParseOr(tokens: Tokens, pos: nat): (r: Parse)
    ensures r.Parsed? ==> pos < r.pos <= |tokens|
    decreases |tokens| - pos, 3
  {
    match ParseAnd(tokens, pos)
    case IndexError => IndexError
    case Parsed(left, next) => OrTail(tokens, left, next)
  }

  function OrTail(tokens: Tokens, left: bool, pos: nat): (r: Parse)
    requires pos <= |tokens|
    ensures r.Parsed? ==> pos <= r.pos <= |tokens| && !TokenAt(tokens, r.pos, OrOp)
    decreases |tokens| - pos, 0
  {
    if !TokenAt(tokens, pos, OrOp) then Parsed(left, pos)
    else match ParseAnd(tokens, pos + 1)
      case IndexError => IndexError
      case Parsed(right, next) => OrTail(tokens, left || right, next)
  }

  function ParseAnd(tokens: Tokens, pos: nat): (r: Parse)
    ensures r.Parsed? ==> pos < r.pos <= |tokens|
    decreases |tokens| - pos, 2
  {
    match ParseAtom(tokens, pos)
    case IndexError => IndexError
    case Parsed(left, next) => AndTail(tokens, left, next)
  }

  function AndTail(tokens: Tokens, left: bool, pos: nat): (r: Parse)
    requires pos <= |tokens|
    ensures r.Parsed? ==> pos <= r.pos <= |tokens| && !TokenAt(tokens, r.pos, AndOp)
    decreases |tokens| - pos, 0
  {
    if !TokenAt(tokens, pos, AndOp) then Parsed(left, pos)
    else match ParseAtom(tokens, pos + 1)
      case IndexError => IndexError
      case Parsed(right, next) => AndTail(tokens, left && right, next)
  }

  function ParseAtom(tokens: Tokens, pos: nat): (r: Parse)
    ensures r.Parsed? ==> pos < r.pos <= |tokens|
    decreases |tokens| - pos, 1
  {
    if pos >= |tokens| then IndexError
    else if tokens[pos] == LPar then
      match ParseOr(tokens, pos + 1)
      case IndexError => IndexError
      case Parsed(value, next) => Parsed(value, if TokenAt(tokens, next, RPar) then next + 1 else next)
    else Parsed(Holds(tokens[pos]), pos + 1)
  }

  /** The verdict on a policy whose attributes have been replaced by truth tokens. */
  function PolicyMatch(tokens: Tokens): bool {
    match ParseOr(tokens, 0)
    case Parsed(value, _) => value
    case IndexError => false
  }

  // ---- The routines, with their loops -----------------------------------------------------------------

  method RunParseOr(tokens: Tokens, start: nat) returns (r: Parse)
    ensures r == ParseOr(tokens, start)
    decreases |tokens| - start, 3
  {
    var first := RunParseAnd(tokens, start);
    if first.IndexError? { return IndexError; }
    var left, pos := first.value, first.pos;
    while pos < |tokens| && tokens[pos] == OrOp
      invariant start < pos <= |tokens|
      invariant OrTail(tokens, left, pos) == ParseOr(tokens, start)
      decreases |tokens| - pos
    {
      var right := RunParseAnd(tokens, pos + 1);
      if right.IndexError? { return IndexError; }
      left, pos := left || right.value, right.pos;
    }
    r := Parsed(left, pos);
  }

  method RunParseAnd(tokens: Tokens, start: nat) returns (r: Parse)
    ensures r == ParseAnd(tokens, start)
    decreases |tokens| - start, 2
  {
    var first := RunParseAtom(tokens, start);
    if first.IndexError? { return IndexError; }
    var left, pos := first.value, first.pos;
    while pos < |tokens| && tokens[pos] == AndOp
      invariant start < pos <= |tokens|
      invariant AndTail(tokens, left, pos) == ParseAnd(tokens, start)
      decreases |tokens| - pos
    {
      var right := RunParseAtom(tokens, pos + 1);
      if right.IndexError? { return IndexError; }
      left, pos := left && right.value, right.pos;
    }
    r := Parsed(left, pos);
  }

  method RunParseAtom(tokens: Tokens, start: nat) returns (r: Parse)
    ensures r == ParseAtom(tokens, start)
    decreases |tokens| - start, 1
  {
    if start >= |tokens| { return IndexError; }
    if tokens[start] == LPar {
      var inner := RunParseOr(tokens, start + 1);
      if inner.IndexError? { return IndexError; }
      var pos := inner.pos;
      if pos < |tokens| && tokens[pos] == RPar {
        pos := pos + 1;
      }
      return Parsed(inner.value, pos);
    }
    r := Parsed(Holds(tokens[start]), start + 1);
  }

  // ---- Policies and their rendering ---------------------------------------------------------------------

  /** A policy as it is written.  A leaf is any token that does not open a parenthesis; an unclosed group lacks its
      closing one. */
  datatype Policy = Leaf(token: Token) | And(left: Policy, right: Policy) | Or(left: Policy, right: Policy)
                  | Group(inner: Policy) | Unclosed(inner: Policy)
  {
    ghost predicate LeavesOk() {
      match this
      case Leaf(token) => token != LPar
      case And(l, r) => l.LeavesOk() && r.LeavesOk()
      case Or(l, r) => l.LeavesOk() && r.LeavesOk()
      case Group(p) => p.LeavesOk()
      case Unclosed(p) => false
    }

    /** An OR under an AND has its parentheses, or at least the opening one. */
    ghost predicate Tolerated() {
      match this
      case Leaf(token) => token != LPar
      case And(l, r) => l.Tolerated() && r.Tolerated() && !l.Or? && !r.Or?
      case Or(l, r) => l.Tolerated() && r.Tolerated()
      case Group(p) => p.Tolerated()
      case Unclosed(p) => p.Tolerated()
    }

    /** An OR under an AND has its parentheses, and all parentheses are closed. */
    ghost predicate Written() { Tolerated() && LeavesOk() }

    /** What the policy means. */
    ghost function Eval(): bool {
      match this
      case Leaf(token) => Holds(token)
      case And(l, r) => l.Eval() && r.Eval()
      case Or(l, r) => l.Eval() || r.Eval()
      case Group(p) => p.Eval()
      case Unclosed(p) => p.Eval()
    }

    ghost function Width(): (w: nat)
      ensures w > 0
    {
      match this
      case Leaf(token) => 1
      case And(l, r) => l.Width() + 1 + r.Width()
      case Or(l, r) => l.Width() + 1 + r.Width()
      case Group(p) => p.Width() + 2
      case Unclosed(p) => p.Width() + 1
    }

    ghost function Render(): (tokens: Tokens)
      ensures |tokens| == Width()
    {
      match this
      case Leaf(token) => [token]
      case And(l, r) => l.Render() + [AndOp] + r.Render()
      case Or(l, r) => l.Render() + [OrOp] + r.Render()
      case Group(p) => [LPar] + p.Render() + [RPar]
      case Unclosed(p) => [LPar] + p.Render()
    }

    ghost function Wrap(): Policy {
      if Or? then Group(this) else this
    }

    /** The policy written with the parentheses its ANDs need and no others. */
    ghost function Parenthesise(): Policy {
      match this
      case Leaf(token) => this
      case And(l, r) => And(l.Parenthesise().Wrap(), r.Parenthesise().Wrap())
      case Or(l, r) => Or(l.Parenthesise(), r.Parenthesise())
      case Group(p) => Group(p.Parenthesise())
      case Unclosed(p) => Unclosed(p.Parenthesise())
    }
  }

  lemma {:induction false} ParenthesiseKeepsMeaning(p: Policy)
    requires p.LeavesOk()
    ensures p.Parenthesise().Written() && p.Parenthesise().Eval() == p.Eval()
  {
    match p
    case Leaf(token) =>
    case And(l, r) => ParenthesiseKeepsMeaning(l); ParenthesiseKeepsMeaning(r);
    case Or(l, r) => ParenthesiseKeepsMeaning(l); ParenthesiseKeepsMeaning(r);
    case Group(q) => ParenthesiseKeepsMeaning(q);
  }

  ghost predicate Continues(ts: Tokens, pos: nat) {
    TokenAt(ts, pos, AndOp) || TokenAt(ts, pos, OrOp)
  }

  /** The tokens from position pos on are those of p's rendering, and nothing that follows an unclosed group belongs
      to it. */
  ghost predicate WrittenAt(p: Policy, ts: Tokens, pos: nat)
    ensures WrittenAt(p, ts, pos) ==> pos + p.Width() <= |ts|
  {
    match p
    case Leaf(token) => TokenAt(ts, pos, token)
    case And(l, r) =>
      WrittenAt(l, ts, pos) && TokenAt(ts, pos + l.Width(), AndOp) && WrittenAt(r, ts, pos + l.Width() + 1)
    case Or(l, r) =>
      WrittenAt(l, ts, pos) && TokenAt(ts, pos + l.Width(), OrOp) && WrittenAt(r, ts, pos + l.Width() + 1)
    case Group(q) => TokenAt(ts, pos, LPar) && WrittenAt(q, ts, pos + 1) && TokenAt(ts, pos + q.Width() + 1, RPar)
    case Unclosed(q) =>
      && TokenAt(ts, pos, LPar) && WrittenAt(q, ts, pos + 1)
      && !TokenAt(ts, pos + q.Width() + 1, RPar) && !Continues(ts, pos + q.Width() + 1)
  }

  ghost predicate Carries(ts: Tokens, pos: nat, toks: Tokens) {
    pos + |toks| <= |ts| && forall i :: 0 <= i < |toks| ==> toks[i] == ts[pos + i]
  }

  lemma SplitInfix(ts: Tokens, pos: nat, a: Tokens, op: Token, b: Tokens)
    requires Carries(ts, pos, a + [op] + b)
    ensures Carries(ts, pos, a) && TokenAt(ts, pos + |a|, op) && Carries(ts, pos + |a| + 1, b)
  {
    var all := a + [op] + b;
    assert forall i :: 0 <= i < |a| ==> a[i] == all[i];
    assert all[|a|] == op;
    forall i | 0 <= i < |b| ensures b[i] == ts[pos + |a| + 1 + i] {
      assert b[i] == all[|a| + 1 + i];
    }
  }

  lemma SplitGroup(ts: Tokens, pos: nat, inner: Tokens)
    requires Carries(ts, pos, [LPar] + inner + [RPar])
    ensures TokenAt(ts, pos, LPar) && Carries(ts, pos + 1, inner) && TokenAt(ts, pos + |inner| + 1, RPar)
  {
    var all := [LPar] + inner + [RPar];
    assert all[0] == LPar && all[|inner| + 1] == RPar;
    forall i | 0 <= i < |inner| ensures inner[i] == ts[pos + 1 + i] {
      assert inner[i] == all[1 + i];
    }
  }

  lemma {:induction false} RenderedWrittenAt(p: Policy, ts: Tokens, pos: nat)
    requires Carries(ts, pos, p.Render()) && p.LeavesOk()
    ensures WrittenAt(p, ts, pos)
    decreases p.Width(), 1
  {
    match p
    case Leaf(token) => assert p.Render()[0] == token;
    case And(l, r) => RenderedInfix(l, AndOp, r, ts, pos);
    case Or(l, r) => RenderedInfix(l, OrOp, r, ts, pos);
    case Group(q) =>
      SplitGroup(ts, pos, q.Render());
      RenderedWrittenAt(q, ts, pos + 1);
  }

  lemma {:induction false} RenderedInfix(l: Policy, op: Token, r: Policy, ts: Tokens, pos: nat)
    requires Carries(ts, pos, l.Render() + [op] + r.Render()) && l.LeavesOk() && r.LeavesOk()
    ensures WrittenAt(l, ts, pos) && TokenAt(ts, pos + l.Width(), op) && WrittenAt(r, ts, pos + l.Width() + 1)
    decreases l.Width() + 1 + r.Width(), 0
  {
    SplitInfix(ts, pos, l.Render(), op, r.Render());
    RenderedWrittenAt(l, ts, pos);
    RenderedWrittenAt(r, ts, pos + l.Width() + 1);
  }

  // ---- Parsing what was rendered --------------------------------------------------------------------------

  /** The tokens from pos up to end are those of the tolerated policy p. */
  ghost predicate Spans(p: Policy, ts: Tokens, pos: nat, end: nat) {
    p.Tolerated() && WrittenAt(p, ts, pos) && end == pos + p.Width()
  }

  /** A leaf or a group, closed or not, is read as one atom. */
  lemma {:induction false} AtomOf(p: Policy, ts: Tokens, pos: nat, end: nat)
    requires !p.And? && !p.Or? && Spans(p, ts, pos, end)
    ensures ParseAtom(ts, pos) == Parsed(p.Eval(), end)
    decreases p, 0
  {
    if !p.Leaf? {
      OrOf(p.inner, ts, pos + 1, pos + 1 + p.inner.Width());
    }
  }

  lemma AndStep(ts: Tokens, left: bool, value: bool, pos: nat, end: nat)
    requires end <= |ts| && TokenAt(ts, pos, AndOp) && ParseAtom(ts, pos + 1) == Parsed(value, end)
    ensures AndTail(ts, left, pos) == AndTail(ts, left && value, end)
  {
  }

  /** A conjunction (or atom) at the start becomes the running value. */
  lemma {:induction false} AndOf(p: Policy, ts: Tokens, pos: nat, end: nat)
    requires !p.Or? && Spans(p, ts, pos, end)
    ensures ParseAnd(ts, pos) == AndTail(ts, p.Eval(), end)
    decreases p, 2
  {
    if p.And? {
      var mid := pos + p.left.Width();
      AndOf(p.left, ts, pos, mid);
      AndTailOf(p.right, ts, p.left.Eval(), p.Eval(), mid, end);
    } else {
      AtomOf(p, ts, pos, end);
    }
  }

  /** A conjunction (or atom) behind an "and" is conjoined to the running value. */
  lemma {:induction false} AndTailOf(p: Policy, ts: Tokens, left: bool, value: bool, pos: nat, end: nat)
    requires !p.Or? && TokenAt(ts, pos, AndOp) && Spans(p, ts, pos + 1, end) && value == (left && p.Eval())
    ensures AndTail(ts, left, pos) == AndTail(ts, value, end)
    decreases p, 2
  {
    if p.And? {
      var mid, v := pos + 1 + p.left.Width(), left && p.left.Eval();
      AndTailOf(p.left, ts, left, v, pos, mid);
      AndTailOf(p.right, ts, v, value, mid, end);
    } else {
      AtomOf(p, ts, pos + 1, end);
      AndStep(ts, left, p.Eval(), pos, end);
    }
  }

  /** A conjunction that no "and" follows is complete. */
  lemma {:induction false} WholeConjunction(p: Policy, ts: Tokens, pos: nat, end: nat)
    requires !p.Or? && Spans(p, ts, pos, end) && !TokenAt(ts, end, AndOp)
    ensures ParseAnd(ts, pos) == Parsed(p.Eval(), end)
    decreases p, 3
  {
    AndOf(p, ts, pos, end);
  }

  lemma OrStep(ts: Tokens, left: bool, value: bool, pos: nat, end: nat)
    requires end <= |ts| && TokenAt(ts, pos, OrOp) && ParseAnd(ts, pos + 1) == Parsed(value, end)
    ensures OrTail(ts, left, pos) == OrTail(ts, left || value, end)
  {
  }

  /** Anything behind an "or" is disjoined to the running value. */
  lemma {:induction false} OrTailOf(p: Policy, ts: Tokens, left: bool, value: bool, pos: nat, end: nat)
    requires TokenAt(ts, pos, OrOp) && Spans(p, ts, pos + 1, end) && !TokenAt(ts, end, AndOp)
    requires value == (left || p.Eval())
    ensures OrTail(ts, left, pos) == OrTail(ts, value, end)
    decreases p, 5
  {
    if p.Or? {
      var mid, v := pos + 1 + p.left.Width(), left || p.left.Eval();
      OrTailOf(p.left, ts, left, v, pos, mid);
      OrTailOf(p.right, ts, v, value, mid, end);
    } else {
      WholeConjunction(p, ts, pos + 1, end);
      OrStep(ts, left, p.Eval(), pos, end);
    }
  }

  /** Anything at the start of a disjunction becomes its running value. */
  lemma {:induction false} OrOf(p: Policy, ts: Tokens, pos: nat, end: nat)
    requires Spans(p, ts, pos, end) && !TokenAt(ts, end, AndOp)
    ensures ParseOr(ts, pos) == OrTail(ts, p.Eval(), end)
    decreases p, 5
  {
    if p.Or? {
      var mid := pos + p.left.Width();
      OrOf(p.left, ts, pos, mid);
      OrTailOf(p.right, ts, p.left.Eval(), p.Eval(), mid, end);
    } else {
      WholeConjunction(p, ts, pos, end);
    }
  }

  /** A policy written with the parentheses it needs is parsed to its truth value, up to its last token. */
  lemma ParseWritten(p: Policy)
    requires p.Written()
    ensures ParseOr(p.Render(), 0) == Parsed(p.Eval(), |p.Render()|)
  {
    RenderedWrittenAt(p, p.Render(), 0);
    WholeList(p, p.Render());
  }

  lemma WholeList(p: Policy, ts: Tokens)
    requires p.Written() && WrittenAt(p, ts, 0) && |ts| == p.Width()
    ensures ParseOr(ts, 0) == Parsed(p.Eval(), |ts|)
  {
    OrOf(p, ts, 0, |ts|);
  }

  /** Round trip: for every policy tree, parsing its rendering returns the tree's truth value and stops exactly
      at the end of the tokens. */
  lemma RenderThenParse(p: Policy)
    requires p.LeavesOk()
    ensures var ts := p.Parenthesise().Render();
      ParseOr(ts, 0) == Parsed(p.Eval(), |ts|) && PolicyMatch(ts) == p.Eval()
  {
    ParenthesiseKeepsMeaning(p);
    ParseWritten(p.Parenthesise());
  }

  // ---- What a success has consumed ------------------------------------------------------------------------

  /** The tokens from pos to end are a tolerated policy with the given value, and no operator follows. */
  ghost predicate Consumes(p: Policy, ts: Tokens, pos: nat, value: bool, end: nat) {
    Spans(p, ts, pos, end) && value == p.Eval() && !Continues(ts, end)
  }

  /** The tokens from start to pos are a tolerated policy with the given value. */
  ghost predicate ReadSoFar(p: Policy, ts: Tokens, start: nat, value: bool, pos: nat) {
    Spans(p, ts, start, pos) && value == p.Eval()
  }

  /** What a routine reads: an atom, a conjunction of atoms, or a disjunction of conjunctions. */
  datatype Kind = Atomic | Conjunctive | Disjunctive

  predicate Fits(p: Policy, kind: Kind) {
    match kind
    case Atomic => !p.And? && !p.Or?
    case Conjunctive => !p.Or?
    case Disjunctive => true
  }

  ghost predicate ReadAs(kind: Kind, p: Policy, ts: Tokens, start: nat, value: bool, pos: nat) {
    Fits(p, kind) && ReadSoFar(p, ts, start, value, pos)
  }

  /** A success has read some policy of the kind. */
  ghost predicate Reads(kind: Kind, ts: Tokens, start: nat, r: Parse) {
    r.Parsed? ==> exists p :: ReadAs(kind, p, ts, start, r.value, r.pos)
  }

  lemma {:induction false} AtomRead(ts: Tokens, pos: nat)
    ensures Reads(Atomic, ts, pos, ParseAtom(ts, pos))
    decreases |ts| - pos, 1
  {
    if pos < |ts| && ts[pos] == LPar {
      OrRead(ts, pos + 1);
      var r := ParseOr(ts, pos + 1);
      if r.Parsed? {
        var inner :| ReadAs(Disjunctive, inner, ts, pos + 1, r.value, r.pos);
        var p := if TokenAt(ts, r.pos, RPar) then Group(inner) else Unclosed(inner);
        OrEnds(ts, pos + 1);
        assert ReadAs(Atomic, p, ts, pos, r.value, ParseAtom(ts, pos).pos);
      }
    } else if pos < |ts| {
      assert ReadAs(Atomic, Leaf(ts[pos]), ts, pos, Holds(ts[pos]), pos + 1);
    }
  }

  lemma {:induction false} AndTailRead(ts: Tokens, start: nat, before: Policy, left: bool, pos: nat)
    requires ReadSoFar(before, ts, start, left, pos) && !before.Or?
    ensures Reads(Conjunctive, ts, start, AndTail(ts, left, pos))
    decreases |ts| - pos, 0
  {
    if TokenAt(ts, pos, AndOp) {
      AtomRead(ts, pos + 1);
      var r := ParseAtom(ts, pos + 1);
      if r.Parsed? {
        var atom :| ReadAs(Atomic, atom, ts, pos + 1, r.value, r.pos);
        AndTailRead(ts, start, And(before, atom), left && r.value, r.pos);
      }
    } else {
      assert ReadAs(Conjunctive, before, ts, start, left, pos);
    }
  }

  lemma {:induction false} AndRead(ts: Tokens, pos: nat)
    ensures Reads(Conjunctive, ts, pos, ParseAnd(ts, pos))
    decreases |ts| - pos, 2
  {
    AtomRead(ts, pos);
    var r := ParseAtom(ts, pos);
    if r.Parsed? {
      var p :| ReadAs(Atomic, p, ts, pos, r.value, r.pos);
      AndTailRead(ts, pos, p, r.value, r.pos);
    }
  }

  lemma {:induction false} OrTailRead(ts: Tokens, start: nat, before: Policy, left: bool, pos: nat)
    requires ReadSoFar(before, ts, start, left, pos)
    ensures Reads(Disjunctive, ts, start, OrTail(ts, left, pos))
    decreases |ts| - pos, 0
  {
    if TokenAt(ts, pos, OrOp) {
      AndRead(ts, pos + 1);
      var r := ParseAnd(ts, pos + 1);
      if r.Parsed? {
        var next :| ReadAs(Conjunctive, next, ts, pos + 1, r.value, r.pos);
        OrTailRead(ts, start, Or(before, next), left || r.value, r.pos);
      }
    } else {
      assert ReadAs(Disjunctive, before, ts, start, left, pos);
    }
  }

  lemma {:induction false} OrRead(ts: Tokens, pos: nat)
    ensures Reads(Disjunctive, ts, pos, ParseOr(ts, pos))
    decreases |ts| - pos, 3
  {
    AndRead(ts, pos);
    var r := ParseAnd(ts, pos);
    if r.Parsed? {
      var p :| ReadAs(Conjunctive, p, ts, pos, r.value, r.pos);
      OrTailRead(ts, pos, p, r.value, r.pos);
    }
  }

  lemma AndEnds(ts: Tokens, pos: nat)
    ensures ParseAnd(ts, pos).Parsed? ==> !TokenAt(ts, ParseAnd(ts, pos).pos, AndOp)
  {
  }

  lemma {:induction false} OrTailEnds(ts: Tokens, left: bool, pos: nat)
    requires pos <= |ts| && !TokenAt(ts, pos, AndOp)
    ensures OrTail(ts, left, pos).Parsed? ==> !Continues(ts, OrTail(ts, left, pos).pos)
    decreases |ts| - pos
  {
    if TokenAt(ts, pos, OrOp) {
      AndEnds(ts, pos + 1);
      var r := ParseAnd(ts, pos + 1);
      if r.Parsed? {
        OrTailEnds(ts, left || r.value, r.pos);
      }
    }
  }

  /** A success stops in front of no operator. */
  lemma OrEnds(ts: Tokens, pos: nat)
    ensures ParseOr(ts, pos).Parsed? ==> !Continues(ts, ParseOr(ts, pos).pos)
  {
    AndEnds(ts, pos);
    var r := ParseAnd(ts, pos);
    if r.Parsed? {
      OrTailEnds(ts, r.value, r.pos);
    }
  }

  lemma OrConsumes(ts: Tokens, pos: nat)
    requires ParseOr(ts, pos).Parsed?
    ensures exists p :: Consumes(p, ts, pos, ParseOr(ts, pos).value, ParseOr(ts, pos).pos)
  {
    OrRead(ts, pos);
    OrEnds(ts, pos);
    var r := ParseOr(ts, pos);
    var p :| ReadAs(Disjunctive, p, ts, pos, r.value, r.pos);
    assert Consumes(p, ts, pos, r.value, r.pos);
  }

  /** On every token list and at every position: evaluation succeeds with a value and an end exactly when the tokens
      up to that end are a policy of that value, closing parentheses possibly missing, that no operator follows. */
  lemma ParseOrIff(ts: Tokens, pos: nat, value: bool, end: nat)
    ensures ParseOr(ts, pos) == Parsed(value, end) <==> exists p :: Consumes(p, ts, pos, value, end)
  {
    if ParseOr(ts, pos) == Parsed(value, end) {
      OrConsumes(ts, pos);
    }
    forall p | Consumes(p, ts, pos, value, end) ensures ParseOr(ts, pos) == Parsed(value, end) {
      OrOf(p, ts, pos, end);
    }
  }

  /** What was consumed is the rendering of that policy. */
  lemma {:induction false} WrittenIsRendered(p: Policy, ts: Tokens, pos: nat)
    requires WrittenAt(p, ts, pos)
    ensures Carries(ts, pos, p.Render())
  {
    match p
    case Leaf(token) =>
    case And(l, r) =>
      WrittenIsRendered(l, ts, pos);
      WrittenIsRendered(r, ts, pos + l.Width() + 1);
      JoinInfix(ts, pos, l.Render(), AndOp, r.Render());
    case Or(l, r) =>
      WrittenIsRendered(l, ts, pos);
      WrittenIsRendered(r, ts, pos + l.Width() + 1);
      JoinInfix(ts, pos, l.Render(), OrOp, r.Render());
    case Group(q) =>
      WrittenIsRendered(q, ts, pos + 1);
      JoinGroup(ts, pos, q.Render());
    case Unclosed(q) =>
      WrittenIsRendered(q, ts, pos + 1);
      JoinOpen(ts, pos, q.Render());
  }

  lemma JoinOpen(ts: Tokens, pos: nat, inner: Tokens)
    requires TokenAt(ts, pos, LPar) && Carries(ts, pos + 1, inner)
    ensures Carries(ts, pos, [LPar] + inner)
  {
    var all := [LPar] + inner;
    forall i | 0 <= i < |all| ensures all[i] == ts[pos + i] {
      if i > 0 {
        assert all[i] == inner[i - 1];
      }
    }
  }

  lemma JoinGroup(ts: Tokens, pos: nat, inner: Tokens)
    requires TokenAt(ts, pos, LPar) && Carries(ts, pos + 1, inner) && TokenAt(ts, pos + |inner| + 1, RPar)
    ensures Carries(ts, pos, [LPar] + inner + [RPar])
  {
    JoinOpen(ts, pos, inner);
    var all := [LPar] + inner + [RPar];
    forall i | 0 <= i < |all| ensures all[i] == ts[pos + i] {
      if i <= |inner| {
        assert all[i] == ([LPar] + inner)[i];
      }
    }
  }

  lemma JoinInfix(ts: Tokens, pos: nat, a: Tokens, op: Token, b: Tokens)
    requires Carries(ts, pos, a) && TokenAt(ts, pos + |a|, op) && Carries(ts, pos + |a| + 1, b)
    ensures Carries(ts, pos, a + [op] + b)
  {
    var all := a + [op] + b;
    forall i | 0 <= i < |all| ensures all[i] == ts[pos + i] {
      if i > |a| {
        assert all[i] == b[i - |a| - 1];
      }
    }
  }

  /** A policy is admitted exactly when some first part of its tokens is a true policy that no operator follows. */
  lemma PolicyMatchIff(ts: Tokens)
    ensures PolicyMatch(ts) <==> exists p :: Admits(p, ts)
  {
    if PolicyMatch(ts) {
      OrConsumes(ts, 0);
      var p :| Consumes(p, ts, 0, true, ParseOr(ts, 0).pos);
      WrittenIsRendered(p, ts, 0);
      assert Admits(p, ts);
    }
    forall p | Admits(p, ts) ensures PolicyMatch(ts) {
      ParseOrIff(ts, 0, true, p.Width());
      assert Consumes(p, ts, 0, true, p.Width());
    }
  }

  /** p holds, and ts starts with it: its rendering, followed by no operator. */
  ghost predicate Admits(p: Policy, ts: Tokens) {
    p.Eval() && p.Render() <= ts && Consumes(p, ts, 0, true, p.Width())
  }

  /** A single word is admitted exactly when it is the truth token. */
  lemma WordMatchIff(text: string)
    ensures PolicyMatch([Word(text)]) <==> text == "True"
  {
    assert ParseAtom([Word(text)], 0) == Parsed(text == "True", 1);
    assert ParseAnd([Word(text)], 0) == Parsed(text == "True", 1);
    assert ParseOr([Word(text)], 0) == Parsed(text == "True", 1);
  }

  /** A concrete policy without its closing parenthesis is admitted, and so is one with a stray token behind it. */
  lemma SlackInputs()
    ensures PolicyMatch([LPar, Word("True")]) && PolicyMatch([Word("True"), Word("False")])
  {
    assert ParseOr([LPar, Word("True")], 1) == Parsed(true, 2);
  }

  // ---- Monotonicity ---------------------------------------------------------------------------------------

  /** us is ts with some words replaced by "True". */
  ghost predicate Strengthened(ts: Tokens, us: Tokens) {
    |ts| == |us| &&
    forall i :: 0 <= i < |ts| ==> us[i] == ts[i] || (Holds(us[i]) && ts[i].Word?)
  }

  /** Same stopping position, and a true result stays true. */
  ghost predicate AtLeast(r: Parse, s: Parse) {
    s == r || (r.Parsed? && s == Parsed(true, r.pos))
  }

  lemma {:induction false} ParseOrMonotone(ts: Tokens, us: Tokens, pos: nat)
    requires Strengthened(ts, us)
    ensures AtLeast(ParseOr(ts, pos), ParseOr(us, pos))
    decreases |ts| - pos, 3
  {
    ParseAndMonotone(ts, us, pos);
    var r, s := ParseAnd(ts, pos), ParseAnd(us, pos);
    if r.Parsed? {
      OrTailMonotone(ts, us, r.value, s.value, r.pos);
    }
  }

  lemma {:induction false} OrTailMonotone(ts: Tokens, us: Tokens, v: bool, w: bool, pos: nat)
    requires Strengthened(ts, us) && pos <= |ts| && (v ==> w)
    ensures AtLeast(OrTail(ts, v, pos), OrTail(us, w, pos))
    decreases |ts| - pos, 0
  {
    if TokenAt(ts, pos, OrOp) {
      ParseAndMonotone(ts, us, pos + 1);
      var r, s := ParseAnd(ts, pos + 1), ParseAnd(us, pos + 1);
      if r.Parsed? {
        OrTailMonotone(ts, us, v || r.value, w || s.value, r.pos);
      }
    }
  }

  lemma {:induction false} ParseAndMonotone(ts: Tokens, us: Tokens, pos: nat)
    requires Strengthened(ts, us)
    ensures AtLeast(ParseAnd(ts, pos), ParseAnd(us, pos))
    decreases |ts| - pos, 2
  {
    ParseAtomMonotone(ts, us, pos);
    var r, s := ParseAtom(ts, pos), ParseAtom(us, pos);
    if r.Parsed? {
      AndTailMonotone(ts, us, r.value, s.value, r.pos);
    }
  }

  lemma {:induction false} AndTailMonotone(ts: Tokens, us: Tokens, v: bool, w: bool, pos: nat)
    requires Strengthened(ts, us) && pos <= |ts| && (v ==> w)
    ensures AtLeast(AndTail(ts, v, pos), AndTail(us, w, pos))
    decreases |ts| - pos, 0
  {
    if TokenAt(ts, pos, AndOp) {
      ParseAtomMonotone(ts, us, pos + 1);
      var r, s := ParseAtom(ts, pos + 1), ParseAtom(us, pos + 1);
      if r.Parsed? {
        AndTailMonotone(ts, us, v && r.value, w && s.value, r.pos);
      }
    }
  }

  lemma {:induction false} ParseAtomMonotone(ts: Tokens, us: Tokens, pos: nat)
    requires Strengthened(ts, us)
    ensures AtLeast(ParseAtom(ts, pos), ParseAtom(us, pos))
    decreases |ts| - pos, 1
  {
    if pos < |ts| && ts[pos] == LPar {
      ParseOrMonotone(ts, us, pos + 1);
    }
  }

  /** Satisfying more attributes never turns an admitted policy into a refused one. */
  lemma PolicyMatchMonotone(ts: Tokens, us: Tokens)
    requires Strengthened(ts, us) && PolicyMatch(ts)
    ensures PolicyMatch(us)
  {
    ParseOrMonotone(ts, us, 0);
  }
}
