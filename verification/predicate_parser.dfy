/** The WHERE grammar, its recursive-descent parser and a printer (src/changefeed/predicate_evaluator.cpp). */
module PredicateParser {
  import opened Wrappers

  datatype Token =
    | IDENT(name: string) | STRING(text: string) | NUMBER(digits: string)
    | KW_AND | KW_OR | KW_NOT | KW_LIKE | KW_IS | KW_NULL | KW_TRUE | KW_FALSE
    | EQ | NE | LT | LE | GT | GE
    | LPAREN | RPAREN
    | END

  datatype Literal = Text(s: string) | Number(digits: string) | Boolean(b: bool) | NullValue

  datatype Comparison = Equal | NotEqual | Less | LessEqual | Greater | GreaterEqual

  datatype Predicate =
    | Or(left: Predicate, right: Predicate)
    | And(left: Predicate, right: Predicate)
    | Not(operand: Predicate)
    | Compare(column: string, op: Comparison, literal: Literal)
    | LikePattern(column: string, pattern: string)
    | IsNull(column: string, negated: bool)

  // ---- The parser as functions on the tokens that are left ----

  function Peek(ts: seq<Token>): Token {
    if ts == [] then END else ts[0]
  }

  function ComparisonOf(t: Token): Option<Comparison> {
    match t
    case EQ => Some(Equal)
    case NE => Some(NotEqual)
    case LT => Some(Less)
    case LE => Some(LessEqual)
    case GT => Some(Greater)
    case GE => Some(GreaterEqual)
    case _ => None
  }

  function LiteralOf(t: Token): Option<Literal> {
    match t
    case STRING(s) => Some(Text(s))
    case NUMBER(d) => Some(Number(d))
    case KW_TRUE => Some(Boolean(true))
    case KW_FALSE => Some(Boolean(false))
    case KW_NULL => Some(NullValue)
    case _ => None
  }

  function LeafAt(ts: seq<Token>): (r: Option<(Predicate, seq<Token>)>)
    ensures r.Some? ==> |r.value.1| < |ts|
  {
    if !Peek(ts).IDENT? then None
    else
      var column := ts[0].name;
      var rest := ts[1..];
      if Peek(rest).KW_IS? then
        var negated := Peek(rest[1..]).KW_NOT?;
        var rest' := if negated then rest[2..] else rest[1..];
        if Peek(rest').KW_NULL? then Some((IsNull(column, negated), rest'[1..])) else None
      else if Peek(rest).KW_LIKE? then
        if Peek(rest[1..]).STRING? then Some((LikePattern(column, rest[1].text), rest[2..])) else None
      else if ComparisonOf(Peek(rest)).Some? then
        var literal :- LiteralOf(Peek(rest[1..]));
        Some((Compare(column, ComparisonOf(rest[0]).value, literal), rest[2..]))
      else None
  }

  function FactorAt(ts: seq<Token>): (r: Option<(Predicate, seq<Token>)>)
    ensures r.Some? ==> |r.value.1| < |ts|
    decreases |ts|, 0
  {
    if Peek(ts).LPAREN? then
      var (p, rest) :- ExprAt(ts[1..]);
      if Peek(rest).RPAREN? then Some((p, rest[1..])) else None
    else if Peek(ts).KW_NOT? then
      var (p, rest) :- FactorAt(ts[1..]);
      Some((Not(p), rest))
    else LeafAt(ts)
  }

  function TermAt(ts: seq<Token>): (r: Option<(Predicate, seq<Token>)>)
    ensures r.Some? ==> |r.value.1| < |ts|
    decreases |ts|, 1
  {
    var (p, rest) :- FactorAt(ts);
    AndTail(p, rest)
  }

  /** The loop of ParseTerm, entered with `left` parsed. */
  function AndTail(left: Predicate, ts: seq<Token>): (r: Option<(Predicate, seq<Token>)>)
    ensures r.Some? ==> |r.value.1| <= |ts|
    decreases |ts|, 2
  {
    if Peek(ts).KW_AND? then
      var (right, rest) :- FactorAt(ts[1..]);
      AndTail(And(left, right), rest)
    else Some((left, ts))
  }

  function ExprAt(ts: seq<Token>): (r: Option<(Predicate, seq<Token>)>)
    ensures r.Some? ==> |r.value.1| < |ts|
    decreases |ts|, 3
  {
    var (p, rest) :- TermAt(ts);
    OrTail(p, rest)
  }

  /** The loop of ParseExpr, entered with `left` parsed. */
  function OrTail(left: Predicate, ts: seq<Token>): (r: Option<(Predicate, seq<Token>)>)
    ensures r.Some? ==> |r.value.1| <= |ts|
    decreases |ts|, 4
  {
    if Peek(ts).KW_OR? then
      var (right, rest) :- TermAt(ts[1..]);
      OrTail(Or(left, right), rest)
    else Some((left, ts))
  }

  /** Parse: one expression and then the end of the input. */
  function ParseTokens(ts: seq<Token>): Option<Predicate> {
    var (p, rest) :- ExprAt(ts);
    if Peek(rest).END? then Some(p) else None
  }

  // ---- The grammar: derivation trees, the tokens they yield and the tree they denote ----

  /**
     expr   := term | expr OR term
     term   := factor | term AND factor
     factor := '(' expr ')' | NOT factor | comparison
   */
  datatype Expr = OneTerm(term: Term) | MoreTerms(expr: Expr, term: Term)
  datatype Term = OneFactor(factor: Factor) | MoreFactors(rest: Term, factor: Factor)
  datatype Factor = Parenthesised(expr: Expr) | Negated(factor: Factor) | Leaf(leaf: Predicate)

  predicate IsLeaf(p: Predicate) {
    p.Compare? || p.LikePattern? || p.IsNull?
  }

  predicate WfExpr(e: Expr) {
    match e
    case OneTerm(t) => WfTerm(t)
    case MoreTerms(e', t) => WfExpr(e') && WfTerm(t)
  }

  predicate WfTerm(t: Term) {
    match t
    case OneFactor(f) => WfFactor(f)
    case MoreFactors(t', f) => WfTerm(t') && WfFactor(f)
  }

  predicate WfFactor(f: Factor) {
    match f
    case Parenthesised(e) => WfExpr(e)
    case Negated(f') => WfFactor(f')
    case Leaf(p) => IsLeaf(p)
  }

  function ComparisonToken(op: Comparison): Token {
    match op
    case Equal => EQ
    case NotEqual => NE
    case Less => LT
    case LessEqual => LE
    case Greater => GT
    case GreaterEqual => GE
  }

  function LiteralToken(l: Literal): Token {
    match l
    case Text(s) => STRING(s)
    case Number(d) => NUMBER(d)
    case Boolean(b) => if b then KW_TRUE else KW_FALSE
    case NullValue => KW_NULL
  }

  function LeafTokens(p: Predicate): seq<Token>
    requires IsLeaf(p)
  {
    match p
    case Compare(c, op, l) => [IDENT(c), ComparisonToken(op), LiteralToken(l)]
    case LikePattern(c, s) => [IDENT(c), KW_LIKE, STRING(s)]
    case IsNull(c, negated) => if negated then [IDENT(c), KW_IS, KW_NOT, KW_NULL] else [IDENT(c), KW_IS, KW_NULL]
  }

  function ExprTokens(e: Expr): seq<Token>
    requires WfExpr(e)
  {
    match e
    case OneTerm(t) => TermTokens(t)
    case MoreTerms(e', t) => ExprTokens(e') + [KW_OR] + TermTokens(t)
  }

  function TermTokens(t: Term): seq<Token>
    requires WfTerm(t)
  {
    match t
    case OneFactor(f) => FactorTokens(f)
    case MoreFactors(t', f) => TermTokens(t') + [KW_AND] + FactorTokens(f)
  }

  function FactorTokens(f: Factor): seq<Token>
    requires WfFactor(f)
  {
    match f
    case Parenthesised(e) => [LPAREN] + ExprTokens(e) + [RPAREN]
    case Negated(f') => [KW_NOT] + FactorTokens(f')
    case Leaf(p) => LeafTokens(p)
  }

  function ExprTree(e: Expr): Predicate {
    match e
    case OneTerm(t) => TermTree(t)
    case MoreTerms(e', t) => Or(ExprTree(e'), TermTree(t))
  }

  function TermTree(t: Term): Predicate {
    match t
    case OneFactor(f) => FactorTree(f)
    case MoreFactors(t', f) => And(TermTree(t'), FactorTree(f))
  }

  function FactorTree(f: Factor): Predicate {
    match f
    case Parenthesised(e) => ExprTree(e)
    case Negated(f') => Not(FactorTree(f'))
    case Leaf(p) => p
  }

  // ---- The parser accepts what the grammar derives ----

  lemma LeafParsed(p: Predicate, rest: seq<Token>)
    requires IsLeaf(p)
    ensures LeafAt(LeafTokens(p) + rest) == Some((p, rest))
  {
    var ts := LeafTokens(p) + rest;
    match p
    case Compare(c, op, l) => assert ts[1..][2..] == rest;
    case LikePattern(c, s) => assert ts[1..][2..] == rest;
    case IsNull(c, negated) =>
      if negated {
        assert ts[1..][2..][1..] == rest;
      } else {
        assert ts[1..][1..][1..] == rest;
      }
  }

  lemma {:induction false} FactorParsed(f: Factor, rest: seq<Token>)
    requires WfFactor(f)
    ensures FactorAt(FactorTokens(f) + rest) == Some((FactorTree(f), rest))
    decreases f
  {
    var ts := FactorTokens(f) + rest;
    match f
    case Parenthesised(e) =>
      assert ts[1..] == ExprTokens(e) + ([RPAREN] + rest);
      ExprParsed(e, [RPAREN] + rest);
      assert ([RPAREN] + rest)[1..] == rest;
    case Negated(f') =>
      assert ts[1..] == FactorTokens(f') + rest;
      FactorParsed(f', rest);
    case Leaf(p) => LeafParsed(p, rest);
  }

  lemma {:induction false} TermParsed(t: Term, rest: seq<Token>)
    requires WfTerm(t)
    ensures TermAt(TermTokens(t) + rest) == AndTail(TermTree(t), rest)
    decreases t
  {
    match t
    case OneFactor(f) => FactorParsed(f, rest);
    case MoreFactors(t', f) =>
      var tail := [KW_AND] + (FactorTokens(f) + rest);
      assert TermTokens(t) + rest == TermTokens(t') + tail;
      TermParsed(t', tail);
      assert tail[1..] == FactorTokens(f) + rest;
      FactorParsed(f, rest);
  }

  lemma {:induction false} ExprParsed(e: Expr, rest: seq<Token>)
    requires WfExpr(e) && !Peek(rest).KW_AND?
    ensures ExprAt(ExprTokens(e) + rest) == OrTail(ExprTree(e), rest)
    decreases e
  {
    match e
    case OneTerm(t) => TermParsed(t, rest);
    case MoreTerms(e', t) =>
      var tail := [KW_OR] + (TermTokens(t) + rest);
      assert ExprTokens(e) + rest == ExprTokens(e') + tail;
      ExprParsed(e', tail);
      assert tail[1..] == TermTokens(t) + rest;
      TermParsed(t, rest);
  }

  /** Every token list the grammar derives is accepted, and parsed to the tree of its derivation. */
  lemma GrammarAccepted(e: Expr)
    requires WfExpr(e)
    ensures ParseTokens(ExprTokens(e) + [END]) == Some(ExprTree(e))
  {
    ExprParsed(e, [END]);
  }

  // ---- The grammar derives what the parser accepts ----

  lemma LeafDerived(ts: seq<Token>)
    requires LeafAt(ts).Some?
    ensures IsLeaf(LeafAt(ts).value.0) && ts == LeafTokens(LeafAt(ts).value.0) + LeafAt(ts).value.1
  {
    var rest := ts[1..];
    assert ts == [ts[0]] + rest;
    assert rest == [rest[0]] + rest[1..];
    assert rest[1..] == [rest[1]] + rest[2..];
    if rest[0].KW_IS? && rest[1].KW_NOT? {
      assert rest[2..] == [rest[2]] + rest[3..];
    }
  }

  lemma {:induction false} FactorDerived(ts: seq<Token>) returns (f: Factor)
    requires FactorAt(ts).Some?
    ensures WfFactor(f) && FactorTree(f) == FactorAt(ts).value.0
    ensures ts == FactorTokens(f) + FactorAt(ts).value.1
    decreases |ts|, 0
  {
    if Peek(ts).LPAREN? {
      var e := ExprDerived(ts[1..]);
      var rest := ExprAt(ts[1..]).value.1;
      f := Parenthesised(e);
      assert rest == [RPAREN] + rest[1..];
      assert ts == [LPAREN] + ts[1..];
    } else if Peek(ts).KW_NOT? {
      var f' := FactorDerived(ts[1..]);
      f := Negated(f');
      assert ts == [KW_NOT] + ts[1..];
    } else {
      LeafDerived(ts);
      f := Leaf(LeafAt(ts).value.0);
    }
  }

  lemma {:induction false} TermDerived(ts: seq<Token>) returns (t: Term)
    requires TermAt(ts).Some?
    ensures WfTerm(t) && TermTree(t) == TermAt(ts).value.0
    ensures ts == TermTokens(t) + TermAt(ts).value.1
    decreases |ts|, 1
  {
    var f := FactorDerived(ts);
    t := AndTailDerived(OneFactor(f), FactorAt(ts).value.1);
  }

  lemma {:induction false} AndTailDerived(parsed: Term, ts: seq<Token>) returns (t: Term)
    requires WfTerm(parsed) && AndTail(TermTree(parsed), ts).Some?
    ensures WfTerm(t) && TermTree(t) == AndTail(TermTree(parsed), ts).value.0
    ensures TermTokens(parsed) + ts == TermTokens(t) + AndTail(TermTree(parsed), ts).value.1
    decreases |ts|, 2
  {
    hide FactorAt, FactorTokens, FactorTree, WfFactor;
    if Peek(ts).KW_AND? {
      var f := FactorDerived(ts[1..]);
      var rest := FactorAt(ts[1..]).value.1;
      assert ts == [KW_AND] + (FactorTokens(f) + rest);
      assert TermTokens(parsed) + ts == TermTokens(MoreFactors(parsed, f)) + rest;
      t := AndTailDerived(MoreFactors(parsed, f), rest);
    } else {
      t := parsed;
    }
  }

  lemma {:induction false} ExprDerived(ts: seq<Token>) returns (e: Expr)
    requires ExprAt(ts).Some?
    ensures WfExpr(e) && ExprTree(e) == ExprAt(ts).value.0
    ensures ts == ExprTokens(e) + ExprAt(ts).value.1
    decreases |ts|, 3
  {
    var t := TermDerived(ts);
    e := OrTailDerived(OneTerm(t), TermAt(ts).value.1);
  }

  lemma {:induction false} OrTailDerived(parsed: Expr, ts: seq<Token>) returns (e: Expr)
    requires WfExpr(parsed) && OrTail(ExprTree(parsed), ts).Some?
    ensures WfExpr(e) && ExprTree(e) == OrTail(ExprTree(parsed), ts).value.0
    ensures ExprTokens(parsed) + ts == ExprTokens(e) + OrTail(ExprTree(parsed), ts).value.1
    decreases |ts|, 4
  {
    hide TermAt, TermTokens, TermTree, WfTerm;
    if Peek(ts).KW_OR? {
      var t := TermDerived(ts[1..]);
      var rest := TermAt(ts[1..]).value.1;
      assert ts == [KW_OR] + (TermTokens(t) + rest);
      assert ExprTokens(parsed) + ts == ExprTokens(MoreTerms(parsed, t)) + rest;
      e := OrTailDerived(MoreTerms(parsed, t), rest);
    } else {
      e := parsed;
    }
  }

  predicate EndsOnce(ts: seq<Token>) {
    ts != [] && forall i :: 0 <= i < |ts| ==> (ts[i].END? <==> i == |ts| - 1)
  }

  ghost predicate Derives(e: Expr, ts: seq<Token>, p: Predicate) {
    WfExpr(e) && ts == ExprTokens(e) + [END] && p == ExprTree(e)
  }

  /** The parser returns p exactly when some derivation of the grammar yields the tokens and denotes p. */
  lemma AcceptsExactlyTheGrammar(ts: seq<Token>, p: Predicate)
    requires EndsOnce(ts)
    ensures ParseTokens(ts) == Some(p) <==> exists e :: Derives(e, ts, p)
  {
    if e :| Derives(e, ts, p) {
      GrammarAccepted(e);
    }
    if ParseTokens(ts) == Some(p) {
      var e := ExprDerived(ts);
      var rest := ExprAt(ts).value.1;
      assert forall i :: 0 <= i < |rest| ==> rest[i] == ts[|ExprTokens(e)| + i];
      NoEndInside(e);
      EndIsLeft(ExprTokens(e), rest, ts);
      assert Derives(e, ts, p);
    }
  }

  lemma EndIsLeft(consumed: seq<Token>, rest: seq<Token>, ts: seq<Token>)
    requires ts == consumed + rest && NoEnd(consumed) && EndsOnce(ts)
    ensures rest != []
  {
    assert ts[|ts| - 1].END?;
    assert rest == [] ==> consumed == ts;
  }

  predicate NoEnd(ts: seq<Token>) {
    forall i :: 0 <= i < |ts| ==> !ts[i].END?
  }

  lemma NoEndInside(e: Expr)
    requires WfExpr(e)
    ensures NoEnd(ExprTokens(e))
    decreases e
  {
    match e
    case OneTerm(t) => NoEndInsideTerm(t);
    case MoreTerms(e', t) => NoEndInside(e'); NoEndInsideTerm(t);
  }

  lemma NoEndInsideTerm(t: Term)
    requires WfTerm(t)
    ensures NoEnd(TermTokens(t))
    decreases t
  {
    match t
    case OneFactor(f) => NoEndInsideFactor(f);
    case MoreFactors(t', f) => NoEndInsideTerm(t'); NoEndInsideFactor(f);
  }

  lemma NoEndInsideFactor(f: Factor)
    requires WfFactor(f)
    ensures NoEnd(FactorTokens(f))
    decreases f
  {
    match f
    case Parenthesised(e) => NoEndInside(e);
    case Negated(f') => NoEndInsideFactor(f');
    case Leaf(p) =>
  }

  // ---- A printer that parenthesises by precedence ----

  /** OR and AND are printed left-associated; an operand is parenthesised when it binds more loosely. */
  function AsExpr(p: Predicate): (e: Expr)
    ensures WfExpr(e) && ExprTree(e) == p
    decreases p, if p.Or? then 0 else 2
  {
    if p.Or? then MoreTerms(AsExpr(p.left), AsTerm(p.right)) else OneTerm(AsTerm(p))
  }

  function AsTerm(p: Predicate): (t: Term)
    ensures WfTerm(t) && TermTree(t) == p
    decreases p, 1
  {
    if p.And? then MoreFactors(AsTerm(p.left), AsFactor(p.right))
    else if p.Or? then OneFactor(Parenthesised(AsExpr(p)))
    else OneFactor(AsFactor(p))
  }

  function AsFactor(p: Predicate): (f: Factor)
    ensures WfFactor(f) && FactorTree(f) == p
    decreases p, if p.Or? || p.And? then 3 else 0
  {
    match p
    case Or(_, _) => Parenthesised(AsExpr(p))
    case And(_, _) => Parenthesised(AsExpr(p))
    case Not(q) => Negated(AsFactor(q))
    case _ => Leaf(p)
  }

  function PrintTokens(p: Predicate): seq<Token> {
    ExprTokens(AsExpr(p)) + [END]
  }

  lemma TokenRoundTrip(p: Predicate)
    ensures ParseTokens(PrintTokens(p)) == Some(p)
  {
    GrammarAccepted(AsExpr(p));
  }

  // ---- The parser object ----

  class Parser {
    const tokens: seq<Token>
    var index: nat

    ghost predicate Valid()
      reads this
    {
      EndsOnce(tokens) && index < |tokens|
    }

    ghost function Left(): seq<Token>
      reads this
      requires Valid()
    {
      tokens[index..]
    }

    constructor (tokens: seq<Token>)
      requires EndsOnce(tokens)
      ensures Valid() && Left() == tokens && this.tokens == tokens
    {
      this.tokens := tokens;
      index := 0;
    }

    /** Consumes the next token if it is t. */
    method Match(t: Token) returns (matched: bool)
      requires Valid() && t != END
      modifies this
      ensures Valid()
      ensures matched <==> old(Peek(Left())) == t
      ensures if matched then Left() == old(Left())[1..] else Left() == old(Left())
    {
      matched := tokens[index] == t;
      if matched {
        index := index + 1;
      }
    }

    method ParseExpr() returns (p: Option<Predicate>)
      requires Valid()
      modifies this
      ensures Valid()
      ensures p.None? <==> old(ExprAt(Left())).None?
      ensures p.Some? ==> old(ExprAt(Left())) == Some((p.value, Left()))
      decreases |tokens| - index, 3
    {
      p := ParseTerm();
      if p.None? {
        return None;
      }
      var more := Match(KW_OR);
      while more
        invariant Valid() && p.Some? && index > old(index)
        invariant more ==> index < |tokens| && tokens[index - 1] == KW_OR
        invariant old(ExprAt(Left())) == OrTail(p.value, if more then tokens[index - 1..] else Left())
        invariant !more ==> !Peek(Left()).KW_OR?
        decreases |tokens| - index, more
      {
        assert tokens[index - 1..][1..] == Left();
        var right := ParseTerm();
        if right.None? {
          return None;
        }
        p := Some(Or(p.value, right.value));
        more := Match(KW_OR);
      }
    }

    method ParseTerm() returns (p: Option<Predicate>)
      requires Valid()
      modifies this
      ensures Valid()
      ensures p.None? <==> old(TermAt(Left())).None?
      ensures p.Some? ==> old(TermAt(Left())) == Some((p.value, Left())) && index > old(index)
      decreases |tokens| - index, 2
    {
      p := ParseFactor();
      if p.None? {
        return None;
      }
      var more := Match(KW_AND);
      while more
        invariant Valid() && p.Some? && index > old(index)
        invariant more ==> index < |tokens| && tokens[index - 1] == KW_AND
        invariant old(TermAt(Left())) == AndTail(p.value, if more then tokens[index - 1..] else Left())
        invariant !more ==> !Peek(Left()).KW_AND?
        decreases |tokens| - index, more
      {
        assert tokens[index - 1..][1..] == Left();
        var right := ParseFactor();
        if right.None? {
          return None;
        }
        p := Some(And(p.value, right.value));
        more := Match(KW_AND);
      }
    }

    method ParseFactor() returns (p: Option<Predicate>)
      requires Valid()
      modifies this
      ensures Valid()
      ensures p.None? <==> old(FactorAt(Left())).None?
      ensures p.Some? ==> old(FactorAt(Left())) == Some((p.value, Left())) && index > old(index)
      decreases |tokens| - index, 1
    {
      var open := Match(LPAREN);
      if open {
        p := ParseExpr();
        if p.None? {
          return None;
        }
        var close := Match(RPAREN);
        return if close then p else None;
      }
      var negated := Match(KW_NOT);
      if negated {
        p := ParseFactor();
        return if p.None? then None else Some(Not(p.value));
      }
      p := ParseComparison();
    }

    method ParseComparison() returns (p: Option<Predicate>)
      requires Valid()
      modifies this
      ensures Valid()
      ensures p.None? <==> old(LeafAt(Left())).None?
      ensures p.Some? ==> old(LeafAt(Left())) == Some((p.value, Left())) && index > old(index)
    {
      if !tokens[index].IDENT? {
        return None;
      }
      var column := tokens[index].name;
      index := index + 1;
      var isTest := Match(KW_IS);
      if isTest {
        var negated := Match(KW_NOT);
        var isNull := Match(KW_NULL);
        return if isNull then Some(IsNull(column, negated)) else None;
      }
      var like := Match(KW_LIKE);
      if like {
        if !tokens[index].STRING? {
          return None;
        }
        var pattern := tokens[index].text;
        index := index + 1;
        return Some(LikePattern(column, pattern));
      }
      var op := ComparisonOf(tokens[index]);
      if op.None? {
        return None;
      }
      index := index + 1;
      var literal := LiteralOf(tokens[index]);
      if literal.None? {
        return None;
      }
      index := index + 1;
      return Some(Compare(column, op.value, literal.value));
    }

    method Parse() returns (p: Option<Predicate>)
      requires Valid()
      modifies this
      ensures Valid()
      ensures p == old(ParseTokens(Left()))
    {
      p := ParseExpr();
      if p.Some? && !tokens[index].END? {
        return None;
      }
    }
  }
}
