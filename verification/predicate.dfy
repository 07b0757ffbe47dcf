/**
 From WHERE text to tokens, the text round trip, and evaluation of a parsed predicate
 (src/changefeed/predicate_evaluator.cpp). Numbers are exact decimals kept as their text.
 */
module Predicates {
  import opened Wrappers
  import opened PredicateParser
  import opened Decimals
  import Like
  import Ordering

  // ---- Character classes of the C locale ----

  predicate IsSpace(c: char) {
    c == ' ' || '\t' <= c <= '\r'
  }

  predicate IsDigit(c: char) {
    '0' <= c <= '9'
  }

  predicate IsWordStart(c: char) {
    'a' <= c <= 'z' || 'A' <= c <= 'Z' || c == '_'
  }

  predicate IsWordChar(c: char) {
    IsWordStart(c) || IsDigit(c)
  }

  function Lower(c: char): char {
    if 'A' <= c <= 'Z' then c - 'A' + 'a' else c
  }

  function ToLower(s: string): string {
    seq(|s|, i requires 0 <= i < |s| => Lower(s[i]))
  }

  function KeywordOrIdent(word: string): Token {
    var lower := ToLower(word);
    if lower == "and" then KW_AND
    else if lower == "or" then KW_OR
    else if lower == "not" then KW_NOT
    else if lower == "like" then KW_LIKE
    else if lower == "is" then KW_IS
    else if lower == "null" then KW_NULL
    else if lower == "true" then KW_TRUE
    else if lower == "false" then KW_FALSE
    else IDENT(word)
  }

  // ---- Lexemes ----

  function WordLength(s: string): (n: nat)
    ensures n <= |s|
    ensures forall i :: 0 <= i < n ==> IsWordChar(s[i])
    ensures n < |s| ==> !IsWordChar(s[n])
  {
    if s == [] || !IsWordChar(s[0]) then 0 else 1 + WordLength(s[1..])
  }

  function DigitsLength(s: string): (n: nat)
    ensures n <= |s|
    ensures forall i :: 0 <= i < n ==> IsDigit(s[i])
    ensures n < |s| ==> !IsDigit(s[n])
  {
    if s == [] || !IsDigit(s[0]) then 0 else 1 + DigitsLength(s[1..])
  }

  function At(s: string, i: nat): Option<char> {
    if i < |s| then Some(s[i]) else None
  }

  predicate DigitAt(s: string, i: nat) {
    i < |s| && IsDigit(s[i])
  }

  function SignLength(s: string): (n: nat)
    ensures n <= |s|
  {
    if s != [] && (s[0] == '+' || s[0] == '-') then 1 else 0
  }

  /** The first characters that make the tokenizer try a number. */
  predicate StartsNumber(s: string) {
    var n := SignLength(s);
    DigitAt(s, n) || (At(s, n) == Some('.') && DigitAt(s, n + 1))
  }

  /** The length of the number at the start of s, or None if a point has no digits after it. */
  function NumberLength(s: string): (n: Option<nat>)
    ensures n.Some? ==> n.value <= |s|
  {
    var j := SignLength(s) + DigitsLength(s[SignLength(s)..]);
    if At(s, j) != Some('.') then Some(j)
    else if DigitAt(s, j + 1) then Some(j + 1 + DigitsLength(s[j + 1..]))
    else None
  }

  /** The contents and length of a quoted string whose opening quote is already behind. */
  function QuotedAt(s: string): (r: Option<(string, nat)>)
    ensures r.Some? ==> 0 < r.value.1 <= |s|
    decreases |s|
  {
    if s == [] then None
    else if s[0] != '\'' then
      var (text, n) :- QuotedAt(s[1..]);
      Some(([s[0]] + text, n + 1))
    else if |s| > 1 && s[1] == '\'' then
      var (text, n) :- QuotedAt(s[2..]);
      Some((['\''] + text, n + 2))
    else Some(([], 1))
  }

  /** The operator or parenthesis at the start of s and its length. */
  function OperatorAt(s: string): (r: Option<(Token, nat)>)
    requires s != []
    ensures r.Some? ==> 0 < r.value.1 <= |s|
  {
    if s[0] == '=' then Some((EQ, 1))
    else if s[0] == '!' then if At(s, 1) == Some('=') then Some((NE, 2)) else None
    else if s[0] == '<' then
      if At(s, 1) == Some('=') then Some((LE, 2))
      else if At(s, 1) == Some('>') then Some((NE, 2))
      else Some((LT, 1))
    else if s[0] == '>' then if At(s, 1) == Some('=') then Some((GE, 2)) else Some((GT, 1))
    else if s[0] == '(' then Some((LPAREN, 1))
    else if s[0] == ')' then Some((RPAREN, 1))
    else None
  }

  /** The lexeme at the start of s: its token, unless it is white space, and its length. */
  function LexemeAt(s: string): (r: Option<(seq<Token>, nat)>)
    requires s != []
    ensures r.Some? ==> 0 < r.value.1 <= |s|
  {
    if IsSpace(s[0]) then Some(([], 1))
    else if IsWordStart(s[0]) then Some(([KeywordOrIdent(s[..WordLength(s)])], WordLength(s)))
    else if StartsNumber(s) then
      var n :- NumberLength(s);
      Some(([NUMBER(s[..n])], n))
    else if s[0] == '\'' then
      var (text, n) :- QuotedAt(s[1..]);
      Some(([STRING(text)], n + 1))
    else
      var (t, n) :- OperatorAt(s);
      Some(([t], n))
  }

  function Lex(s: string): Option<seq<Token>>
    decreases |s|
  {
    if s == [] then Some([END])
    else
      var (ts, n) :- LexemeAt(s);
      var more :- Lex(s[n..]);
      Some(ts + more)
  }

  /** PredicateEvaluator::Parse. */
  function ParseWhere(text: string): Option<Predicate> {
    var ts :- Lex(text);
    ParseTokens(ts)
  }

  // ---- Printing ----

  function DoubleQuotes(s: string): string {
    if s == [] then [] else (if s[0] == '\'' then "''" else [s[0]]) + DoubleQuotes(s[1..])
  }

  function TokenText(t: Token): string {
    match t
    case IDENT(name) => name
    case STRING(text) => "'" + DoubleQuotes(text) + "'"
    case NUMBER(digits) => digits
    case KW_AND => "AND"
    case KW_OR => "OR"
    case KW_NOT => "NOT"
    case KW_LIKE => "LIKE"
    case KW_IS => "IS"
    case KW_NULL => "NULL"
    case KW_TRUE => "TRUE"
    case KW_FALSE => "FALSE"
    case EQ => "="
    case NE => "!="
    case LT => "<"
    case LE => "<="
    case GT => ">"
    case GE => ">="
    case LPAREN => "("
    case RPAREN => ")"
    case END => ""
  }

  function Render(ts: seq<Token>): string {
    if ts == [] then [] else TokenText(ts[0]) + " " + Render(ts[1..])
  }

  function Print(p: Predicate): string {
    Render(ExprTokens(AsExpr(p)))
  }

  /** A column name is a word that is not a keyword. */
  predicate IsName(name: string) {
    name != [] && IsWordStart(name[0]) && WordLength(name) == |name| && KeywordOrIdent(name) == IDENT(name)
  }

  predicate IsNumberText(digits: string) {
    digits != [] && StartsNumber(digits) && NumberLength(digits) == Some(|digits|)
  }

  predicate Writable(t: Token) {
    match t
    case IDENT(name) => IsName(name)
    case NUMBER(digits) => IsNumberText(digits)
    case END => false
    case _ => true
  }

  predicate AllWritable(ts: seq<Token>) {
    forall i :: 0 <= i < |ts| ==> Writable(ts[i])
  }

  predicate LiteralWritable(l: Literal) {
    l.Number? ==> IsNumberText(l.digits)
  }

  /** The trees the grammar can write: names are names and numbers are numbers. */
  predicate PredicateWritable(p: Predicate) {
    match p
    case Or(l, r) => PredicateWritable(l) && PredicateWritable(r)
    case And(l, r) => PredicateWritable(l) && PredicateWritable(r)
    case Not(q) => PredicateWritable(q)
    case Compare(c, _, l) => IsName(c) && LiteralWritable(l)
    case LikePattern(c, _) => IsName(c)
    case IsNull(c, _) => IsName(c)
  }

  // ---- Lexing what was printed ----

  lemma {:induction false} WordLengthBefore(w: string, rest: string)
    requires WordLength(w) == |w|
    requires rest == [] || !IsWordChar(rest[0])
    ensures WordLength(w + rest) == |w|
    decreases |w|
  {
    if w == [] {
      assert w + rest == rest;
    } else {
      assert (w + rest)[1..] == w[1..] + rest;
      WordLengthBefore(w[1..], rest);
    }
  }

  lemma {:induction false} DigitsLengthBefore(d: string, rest: string)
    requires rest == [] || !IsDigit(rest[0])
    ensures DigitsLength(d) == |d| ==> DigitsLength(d + rest) == |d|
    ensures DigitsLength(d) < |d| ==> DigitsLength(d + rest) == DigitsLength(d)
    decreases |d|
  {
    if d == [] {
      assert d + rest == rest;
    } else {
      assert (d + rest)[1..] == d[1..] + rest;
      DigitsLengthBefore(d[1..], rest);
    }
  }

  lemma NumberLengthBefore(d: string, rest: string)
    requires IsNumberText(d)
    requires rest == [] || (!IsDigit(rest[0]) && rest[0] != '.')
    ensures StartsNumber(d + rest) && NumberLength(d + rest) == Some(|d|)
  {
    hide DigitsLength;
    var s := d + rest;
    var n := SignLength(d);
    assert SignLength(s) == n;
    assert s[n..] == d[n..] + rest;
    DigitsLengthBefore(d[n..], rest);
    var j := n + DigitsLength(d[n..]);
    assert DigitsLength(s[n..]) == DigitsLength(d[n..]);
    if At(d, j) == Some('.') {
      assert j + 1 <= |d|;
      assert s[j + 1..] == d[j + 1..] + rest;
      DigitsLengthBefore(d[j + 1..], rest);
    }
  }

  lemma DoubleQuotesStep(s: string)
    ensures s == [] ==> DoubleQuotes(s) == []
    ensures s != [] ==> DoubleQuotes(s) == (if s[0] == '\'' then ['\'', '\''] else [s[0]]) + DoubleQuotes(s[1..])
  {
  }

  lemma {:induction false} QuotedPrinted(text: string, rest: string)
    requires rest == [] || rest[0] != '\''
    ensures QuotedAt(DoubleQuotes(text) + "'" + rest) == Some((text, |DoubleQuotes(text)| + 1))
    decreases |text|
  {
    hide DoubleQuotes;
    DoubleQuotesStep(text);
    var s := DoubleQuotes(text) + "'" + rest;
    if text != [] {
      QuotedPrinted(text[1..], rest);
      var tail := DoubleQuotes(text[1..]) + "'" + rest;
      if text[0] == '\'' {
        assert s[2..] == tail;
      } else {
        assert s[1..] == tail;
      }
      assert [text[0]] + text[1..] == text;
    }
  }

  lemma Spells(word: string, lower: string)
    requires |word| == |lower| > 0 && forall i :: 0 <= i < |word| ==> IsWordStart(word[i]) && Lower(word[i]) == lower[i]
    ensures ToLower(word) == lower && WordLength(word) == |word|
  {
    WordLengthOfPrefix(word, |word|);
    assert word[..|word|] == word;
  }

  lemma KeywordText(t: Token)
    requires t.KW_AND? || t.KW_OR? || t.KW_NOT? || t.KW_LIKE? || t.KW_IS? || t.KW_NULL? || t.KW_TRUE? || t.KW_FALSE?
    ensures TokenText(t) != [] && IsWordStart(TokenText(t)[0]) && WordLength(TokenText(t)) == |TokenText(t)|
    ensures KeywordOrIdent(TokenText(t)) == t
  {
    hide WordLength, ToLower;
    match t
    case KW_AND => Spells("AND", "and");
    case KW_OR => Spells("OR", "or");
    case KW_NOT => Spells("NOT", "not");
    case KW_LIKE => Spells("LIKE", "like");
    case KW_IS => Spells("IS", "is");
    case KW_NULL => Spells("NULL", "null");
    case KW_TRUE => Spells("TRUE", "true");
    case KW_FALSE => Spells("FALSE", "false");
  }

  lemma OperatorLexed(t: Token, after: string)
    requires t.EQ? || t.NE? || t.LT? || t.LE? || t.GT? || t.GE? || t.LPAREN? || t.RPAREN?
    requires after != [] && after[0] == ' '
    ensures TokenText(t) != [] && LexemeAt(TokenText(t) + after) == Some(([t], |TokenText(t)|))
  {
    hide KeywordOrIdent, NumberLength, StartsNumber, WordLength, QuotedAt;
    NotNumber(TokenText(t) + after);
  }

  lemma KeywordLexed(t: Token, after: string)
    requires t.KW_AND? || t.KW_OR? || t.KW_NOT? || t.KW_LIKE? || t.KW_IS? || t.KW_NULL? || t.KW_TRUE? || t.KW_FALSE?
    requires after != [] && after[0] == ' '
    ensures TokenText(t) != [] && LexemeAt(TokenText(t) + after) == Some(([t], |TokenText(t)|))
  {
    hide KeywordOrIdent, NumberLength, StartsNumber, WordLength, QuotedAt, TokenText, OperatorAt;
    KeywordText(t);
    WordLengthBefore(TokenText(t), after);
    assert (TokenText(t) + after)[..|TokenText(t)|] == TokenText(t);
  }

  lemma LiteralLexed(t: Token, after: string)
    requires Writable(t) && (t.IDENT? || t.STRING? || t.NUMBER?)
    requires after != [] && after[0] == ' '
    ensures TokenText(t) != [] && LexemeAt(TokenText(t) + after) == Some(([t], |TokenText(t)|))
  {
    hide KeywordOrIdent, NumberLength, StartsNumber, WordLength, DoubleQuotes, QuotedAt, OperatorAt;
    var s := TokenText(t) + after;
    match t
    case IDENT(name) =>
      WordLengthBefore(name, after);
      assert s[..|name|] == name;
    case STRING(text) =>
      QuotedPrinted(text, after);
      assert s[1..] == DoubleQuotes(text) + "'" + after;
      NotNumber(s);
    case NUMBER(digits) =>
      NumberStart(digits);
      NumberLengthBefore(digits, after);
      assert s[..|digits|] == digits;
  }

  lemma TokenLexed(t: Token, rest: string)
    requires Writable(t)
    ensures TokenText(t) != []
    ensures LexemeAt(TokenText(t) + " " + rest) == Some(([t], |TokenText(t)|))
  {
    hide LexemeAt, TokenText, IsName, IsNumberText;
    assert TokenText(t) + " " + rest == TokenText(t) + (" " + rest);
    match t
    case IDENT(_) => LiteralLexed(t, " " + rest);
    case STRING(_) => LiteralLexed(t, " " + rest);
    case NUMBER(_) => LiteralLexed(t, " " + rest);
    case EQ => OperatorLexed(t, " " + rest);
    case NE => OperatorLexed(t, " " + rest);
    case LT => OperatorLexed(t, " " + rest);
    case LE => OperatorLexed(t, " " + rest);
    case GT => OperatorLexed(t, " " + rest);
    case GE => OperatorLexed(t, " " + rest);
    case LPAREN => OperatorLexed(t, " " + rest);
    case RPAREN => OperatorLexed(t, " " + rest);
    case END =>
    case _ => KeywordLexed(t, " " + rest);
  }

  lemma NotNumber(s: string)
    requires s != [] && !IsDigit(s[0]) && s[0] != '.' && s[0] != '+' && s[0] != '-'
    ensures !StartsNumber(s)
  {
  }

  lemma NumberStart(s: string)
    requires StartsNumber(s)
    ensures s != [] && !IsSpace(s[0]) && !IsWordStart(s[0])
  {
  }

  lemma {:induction false} RenderLexed(ts: seq<Token>)
    requires AllWritable(ts)
    ensures Lex(Render(ts)) == Some(ts + [END])
    decreases |ts|
  {
    hide TokenText, LexemeAt, Writable;
    if ts != [] {
      var text := TokenText(ts[0]);
      var rest := Render(ts[1..]);
      var s := Render(ts);
      assert Writable(ts[0]);
      TokenLexed(ts[0], rest);
      assert s[|text|..] == " " + rest;
      RenderLexed(ts[1..]);
      assert (" " + rest)[1..] == rest;
      assert LexemeAt(" " + rest) == Some(([], 1)) by { SpaceLexed(" " + rest); }
      assert Lex(" " + rest) == Some([] + (ts[1..] + [END]));
      assert [ts[0]] + ([] + (ts[1..] + [END])) == ts + [END];
    } else {
      assert ts + [END] == [END];
    }
  }

  lemma SpaceLexed(s: string)
    requires s != [] && s[0] == ' '
    ensures LexemeAt(s) == Some(([], 1))
  {
  }

  // ---- What the tokenizer can produce ----

  lemma {:induction false} WordLengthOfPrefix(s: string, n: nat)
    requires n <= |s| && forall i :: 0 <= i < n ==> IsWordChar(s[i])
    ensures WordLength(s[..n]) == n
    decreases n
  {
    if n > 0 {
      assert s[..n][1..] == s[1..][..n - 1];
      WordLengthOfPrefix(s[1..], n - 1);
    }
  }

  lemma {:induction false} DigitsLengthOfPrefix(s: string, n: nat)
    requires n <= |s|
    ensures DigitsLength(s[..n]) == if n <= DigitsLength(s) then n else DigitsLength(s)
    decreases n
  {
    if n > 0 && IsDigit(s[0]) {
      assert s[..n][1..] == s[1..][..n - 1];
      DigitsLengthOfPrefix(s[1..], n - 1);
    }
  }

  /** Cutting s after its number keeps the sign, the whole part and, if there is one, the fraction. */
  lemma NumberPrefix(s: string)
    requires NumberLength(s).Some?
    ensures NumberLength(s[..NumberLength(s).value]) == Some(NumberLength(s).value)
  {
    hide DigitsLength;
    var n := NumberLength(s).value;
    var d := s[..n];
    var k := SignLength(s);
    var j := k + DigitsLength(s[k..]);
    assert j <= n <= |s| && |d| == n;
    assert SignLength(d) == k by {
      assert n > 0 ==> d[0] == s[0];
    }
    assert d[k..] == s[k..][..n - k];
    DigitsLengthOfPrefix(s[k..], n - k);
    assert DigitsLength(d[k..]) == j - k;
    if n == j {
      assert At(d, j) == None;
    } else {
      assert d[j] == '.' && At(d, j) == Some('.');
      assert d[j + 1..] == s[j + 1..][..n - j - 1];
      DigitsLengthOfPrefix(s[j + 1..], n - j - 1);
      DigitsPositive(s[j + 1..]);
      assert DigitAt(d, j + 1);
    }
  }

  lemma NumberStartPrefix(s: string)
    requires StartsNumber(s) && NumberLength(s).Some?
    ensures NumberLength(s).value > 0 && StartsNumber(s[..NumberLength(s).value])
  {
    hide DigitsLength;
    var n := NumberLength(s).value;
    var k := SignLength(s);
    DigitsPositive(s[k..]);
    if !DigitAt(s, k) {
      DigitsPositive(s[k + 1..]);
    }
  }

  lemma NumberLexedWritable(s: string)
    requires StartsNumber(s) && NumberLength(s).Some?
    ensures NumberLength(s).value > 0 && IsNumberText(s[..NumberLength(s).value])
  {
    hide NumberLength, StartsNumber;
    NumberPrefix(s);
    NumberStartPrefix(s);
  }

  lemma WordLexedWritable(s: string)
    requires s != [] && IsWordStart(s[0])
    ensures Writable(KeywordOrIdent(s[..WordLength(s)]))
  {
    hide KeywordOrIdent, WordLength;
    WordNonempty(s);
    WordLengthOfPrefix(s, WordLength(s));
    WordToken(s[..WordLength(s)]);
  }

  lemma WordToken(word: string)
    ensures KeywordOrIdent(word).IDENT? ==> KeywordOrIdent(word).name == word
    ensures !KeywordOrIdent(word).NUMBER? && !KeywordOrIdent(word).END?
  {
    hide ToLower;
  }

  lemma {:induction false} LexedWritable(s: string)
    requires Lex(s).Some?
    ensures EndsOnce(Lex(s).value)
    ensures AllWritable(Lex(s).value[..|Lex(s).value| - 1])
    decreases |s|
  {
    hide IsNumberText, IsName, KeywordOrIdent, NumberLength, StartsNumber, WordLength, QuotedAt;
    if s != [] {
      var (ts, n) := LexemeAt(s).value;
      LexedWritable(s[n..]);
      if !IsSpace(s[0]) && IsWordStart(s[0]) {
        WordLexedWritable(s);
      } else if !IsSpace(s[0]) && StartsNumber(s) {
        NumberLexedWritable(s);
      }
      assert AllWritable(ts);
      var more := Lex(s[n..]).value;
      assert (ts + more)[..|ts + more| - 1] == ts + more[..|more| - 1];
    }
  }

  lemma {:induction false} TokensWritable(e: Expr)
    requires WfExpr(e)
    ensures AllWritable(ExprTokens(e)) <==> PredicateWritable(ExprTree(e))
    decreases e
  {
    hide IsName, IsNumberText;
    match e
    case OneTerm(t) => TermTokensWritable(t);
    case MoreTerms(e', t) =>
      TokensWritable(e');
      TermTokensWritable(t);
      WritableConcat(ExprTokens(e') + [KW_OR], TermTokens(t));
      WritableConcat(ExprTokens(e'), [KW_OR]);
  }

  lemma {:induction false} TermTokensWritable(t: Term)
    requires WfTerm(t)
    ensures AllWritable(TermTokens(t)) <==> PredicateWritable(TermTree(t))
    decreases t
  {
    hide IsName, IsNumberText;
    match t
    case OneFactor(f) => FactorTokensWritable(f);
    case MoreFactors(t', f) =>
      TermTokensWritable(t');
      FactorTokensWritable(f);
      WritableConcat(TermTokens(t') + [KW_AND], FactorTokens(f));
      WritableConcat(TermTokens(t'), [KW_AND]);
  }

  lemma {:induction false} FactorTokensWritable(f: Factor)
    requires WfFactor(f)
    ensures AllWritable(FactorTokens(f)) <==> PredicateWritable(FactorTree(f))
    decreases f
  {
    hide IsName, IsNumberText;
    match f
    case Parenthesised(e) =>
      TokensWritable(e);
      WritableConcat([LPAREN] + ExprTokens(e), [RPAREN]);
      WritableConcat([LPAREN], ExprTokens(e));
    case Negated(f') =>
      FactorTokensWritable(f');
      WritableConcat([KW_NOT], FactorTokens(f'));
    case Leaf(p) => LeafTokensWritable(p);
  }

  lemma LeafTokensWritable(p: Predicate)
    requires IsLeaf(p)
    ensures AllWritable(LeafTokens(p)) <==> PredicateWritable(p)
  {
    hide IsName, IsNumberText;
    var ts := LeafTokens(p);
    assert Writable(ts[0]) <==> IsName(p.column);
    assert Writable(ts[1]);
    assert p.Compare? ==> (Writable(ts[2]) <==> LiteralWritable(p.literal));
  }

  lemma WritableConcat(a: seq<Token>, b: seq<Token>)
    ensures AllWritable(a + b) <==> AllWritable(a) && AllWritable(b)
  {
    hide Writable;
    if AllWritable(a + b) {
      assert forall i :: 0 <= i < |a| ==> a[i] == (a + b)[i];
      assert forall i :: 0 <= i < |b| ==> b[i] == (a + b)[|a| + i];
    }
  }

  /**
   Printing a predicate, with parentheses by precedence and quotes doubled, then tokenizing and parsing the
   text gives back exactly that predicate, for all and only the trees the grammar can write.
   */
  lemma TextRoundTrip(p: Predicate)
    ensures ParseWhere(Print(p)) == Some(p) <==> PredicateWritable(p)
  {
    hide Lex, Render, ExprTokens, ParseTokens, AllWritable, EndsOnce;
    var e := AsExpr(p);
    TokensWritable(e);
    if PredicateWritable(p) {
      RenderLexed(ExprTokens(e));
      GrammarAccepted(e);
    } else if ParseWhere(Print(p)) == Some(p) {
      ParsedIsWritable(Print(p));
    }
  }

  /** Whatever text is parsed, the tree is one the grammar can write, so printing it and parsing again keeps it. */
  lemma ParsedIsWritable(text: string)
    requires ParseWhere(text).Some?
    ensures PredicateWritable(ParseWhere(text).value)
  {
    hide Lex, ExprTokens, ParseTokens, AllWritable;
    var ts := Lex(text).value;
    LexedWritable(text);
    AcceptsExactlyTheGrammar(ts, ParseTokens(ts).value);
    var e :| Derives(e, ts, ParseTokens(ts).value);
    assert ts[..|ts| - 1] == ExprTokens(e);
    TokensWritable(e);
  }

  // ---- The tokenizer ----

  function After<T>(first: seq<T>, more: Option<seq<T>>): Option<seq<T>> {
    match more
    case None => None
    case Some(rest) => Some(first + rest)
  }

  lemma AfterBoth<T>(a: seq<T>, b: seq<T>, more: Option<seq<T>>)
    ensures After(a, After(b, more)) == After(a + b, more)
    ensures After([], more) == more
  {
    if more.Some? {
      assert a + (b + more.value) == a + b + more.value;
      assert [] + more.value == more.value;
    }
  }

  method Tokenize(input: string) returns (tokens: Option<seq<Token>>)
    ensures tokens == Lex(input)
    ensures tokens.Some? ==> EndsOnce(tokens.value)
  {
    hide LexemeAt;
    var produced: seq<Token> := [];
    var i := 0;
    assert input[0..] == input;
    AfterBoth([], [], Lex(input));
    while i < |input|
      invariant 0 <= i <= |input|
      invariant Lex(input) == After(produced, Lex(input[i..]))
    {
      var token, j := ScanLexeme(input, i);
      if j == i {
        return None;
      }
      assert input[i..][j - i..] == input[j..];
      AfterBoth(produced, token, Lex(input[j..]));
      produced := produced + token;
      i := j;
    }
    assert input[i..] == [];
    tokens := Some(produced + [END]);
    LexedWritable(input);
  }

  /** One turn of the tokenizer's loop; j == i is the error return. */
  method ScanLexeme(input: string, i: nat) returns (token: seq<Token>, j: nat)
    requires i < |input|
    ensures i <= j <= |input|
    ensures LexemeAt(input[i..]) == if j == i then None else Some((token, j - i))
  {
    hide KeywordOrIdent, NumberLength, StartsNumber, WordLength, QuotedAt;
    var c := input[i];
    var s := input[i..];
    if IsSpace(c) {
      return [], i + 1;
    }
    if IsWordStart(c) {
      j := ScanWord(input, i);
      assert s[..j - i] == input[i..j];
      WordNonempty(s);
      return [KeywordOrIdent(input[i..j])], j;
    }
    if StartsNumber(s) {
      var ok, n := ScanNumber(s);
      if !ok {
        return [], i;
      }
      return [NUMBER(s[..n])], i + n;
    }
    if c == '\'' {
      var text;
      text, j := ScanQuoted(input, i + 1);
      assert s[1..] == input[i + 1..];
      if text.None? {
        return [], i;
      }
      return [STRING(text.value)], j;
    }
    var op := OperatorAt(s);
    if op.None? {
      return [], i;
    }
    return [op.value.0], i + op.value.1;
  }

  lemma WordNonempty(s: string)
    requires s != [] && IsWordStart(s[0])
    ensures WordLength(s) > 0
  {
  }

  method ScanWord(input: string, i: nat) returns (j: nat)
    requires i <= |input|
    ensures j == i + WordLength(input[i..])
  {
    j := i;
    while j < |input| && IsWordChar(input[j])
      invariant i <= j <= |input|
      invariant i + WordLength(input[i..]) == j + WordLength(input[j..])
    {
      assert input[j..][1..] == input[j + 1..];
      j := j + 1;
    }
  }

  method ScanDigits(input: string, i: nat) returns (j: nat)
    requires i <= |input|
    ensures j == i + DigitsLength(input[i..])
  {
    j := i;
    while j < |input| && IsDigit(input[j])
      invariant i <= j <= |input|
      invariant i + DigitsLength(input[i..]) == j + DigitsLength(input[j..])
    {
      assert input[j..][1..] == input[j + 1..];
      j := j + 1;
    }
  }

  /** Scans the number that s starts with; ok is false if a point has no digits after it. */
  method ScanNumber(s: string) returns (ok: bool, j: nat)
    requires StartsNumber(s)
    ensures ok <==> NumberLength(s).Some?
    ensures ok ==> NumberLength(s) == Some(j) && 0 < j <= |s|
  {
    hide DigitsLength, StartsNumber;
    if NumberLength(s).Some? {
      NumberStartPrefix(s);
    }
    var start := 0;
    if s != [] && (s[0] == '+' || s[0] == '-') {
      start := 1;
    }
    j := ScanDigits(s, start);
    if j < |s| && s[j] == '.' {
      j := j + 1;
      if j >= |s| || !IsDigit(s[j]) {
        return false, 0;
      }
      j := ScanDigits(s, j);
    }
    ok := true;
  }

  lemma DigitsPositive(s: string)
    ensures DigitAt(s, 0) ==> DigitsLength(s) > 0
  {
  }

  lemma QuotedStep(s: string)
    requires s != []
    ensures s[0] != '\'' ==> (QuotedAt(s).None? <==> QuotedAt(s[1..]).None?)
    ensures s[0] != '\'' && QuotedAt(s).Some? ==>
              QuotedAt(s).value == ([s[0]] + QuotedAt(s[1..]).value.0, QuotedAt(s[1..]).value.1 + 1)
    ensures s[0] == '\'' && |s| > 1 && s[1] == '\'' ==> (QuotedAt(s).None? <==> QuotedAt(s[2..]).None?)
    ensures s[0] == '\'' && |s| > 1 && s[1] == '\'' && QuotedAt(s).Some? ==>
              QuotedAt(s).value == (['\''] + QuotedAt(s[2..]).value.0, QuotedAt(s[2..]).value.1 + 2)
    ensures s[0] == '\'' && !(|s| > 1 && s[1] == '\'') ==> QuotedAt(s) == Some(([], 1))
  {
  }

  method ScanQuoted(input: string, i: nat) returns (text: Option<string>, j: nat)
    requires i <= |input|
    ensures text.None? <==> QuotedAt(input[i..]).None?
    ensures text.Some? ==> QuotedAt(input[i..]) == Some((text.value, j - i)) && i <= j <= |input|
  {
    hide QuotedAt;
    var value := "";
    j := i;
    assert value + [] == value;
    while j < |input|
      invariant i <= j <= |input|
      invariant QuotedAt(input[i..]).None? <==> QuotedAt(input[j..]).None?
      invariant QuotedAt(input[j..]).Some? ==>
                  && QuotedAt(input[i..]).value.0 == value + QuotedAt(input[j..]).value.0
                  && QuotedAt(input[i..]).value.1 == j - i + QuotedAt(input[j..]).value.1
    {
      QuotedStep(input[j..]);
      if input[j] == '\'' {
        if j + 1 < |input| && input[j + 1] == '\'' {
          assert input[j..][2..] == input[j + 2..];
          value := value + ['\''];
          j := j + 2;
        } else {
          j := j + 1;
          assert value + [] == value;
          return Some(value), j;
        }
      } else {
        assert input[j..][1..] == input[j + 1..];
        value := value + [input[j]];
        j := j + 1;
      }
    }
    assert QuotedAt(input[j..]).None? by { QuotedNothing(input[j..]); }
    return None, j;
  }

  lemma QuotedNothing(s: string)
    requires s == []
    ensures QuotedAt(s).None?
  {
  }

  method ParseClause(text: string) returns (p: Option<Predicate>)
    ensures p == ParseWhere(text)
  {
    var tokens := Tokenize(text);
    if tokens.None? {
      return None;
    }
    var parser := new Parser(tokens.value);
    p := parser.Parse();
  }

  // ---- Evaluation ----

  /** A column of the row object. Nested objects and arrays match no literal. */
  datatype Cell = NullCell | BoolCell(b: bool) | NumberCell(x: real) | TextCell(s: string) | NestedCell

  type RowObject = map<string, Cell>

  function Magnitude(whole: string, fraction: string): real {
    DigitsValue(Codes(whole)) as real + DigitsValue(Codes(fraction)) as real / Power10(|fraction|)
  }

  /** The exact decimal value of a number's text. */
  function NumberValue(s: string): real {
    var k := SignLength(s);
    var whole := DigitsLength(s[k..]);
    var fraction := if k + whole < |s| then s[k + whole + 1..] else [];
    var magnitude := Magnitude(s[k..k + whole], fraction);
    if s != [] && s[0] == '-' then -magnitude else magnitude
  }

  /** Byte-wise lexicographic order. */
  predicate TextLess(a: string, b: string) {
    Ordering.Less(Codes(a), Codes(b))
  }

  predicate Ordered(equal: bool, less: bool, op: Comparison) {
    match op
    case Equal => equal
    case NotEqual => !equal
    case Less => less
    case LessEqual => less || equal
    case Greater => !less && !equal
    case GreaterEqual => !less
  }

  predicate EvaluateComparison(cell: Cell, op: Comparison, literal: Literal) {
    match literal
    case NullValue => false
    case Number(digits) =>
      cell.NumberCell? && Ordered(cell.x == NumberValue(digits), cell.x < NumberValue(digits), op)
    case Text(s) => cell.TextCell? && Ordered(cell.s == s, TextLess(cell.s, s), op)
    case Boolean(b) =>
      cell.BoolCell? && ((op == Equal && cell.b == b) || (op == NotEqual && cell.b != b))
  }

  predicate Evaluate(p: Predicate, row: RowObject) {
    match p
    case Or(l, r) => Evaluate(l, row) || Evaluate(r, row)
    case And(l, r) => Evaluate(l, row) && Evaluate(r, row)
    case Not(q) => !Evaluate(q, row)
    case IsNull(c, negated) => (c !in row || row[c].NullCell?) != negated
    case LikePattern(c, pattern) => c in row && row[c].TextCell? && Like.Matches(pattern, row[c].s)
    case Compare(c, op, literal) => c in row && EvaluateComparison(row[c], op, literal)
  }

  // ---- What a WHERE clause means ----

  /** How a cell stands to a literal of its own ordered type: below, equal or above. */
  function Standing(cell: Cell, literal: Literal): Option<int> {
    match literal
    case Number(digits) =>
      if !cell.NumberCell? then None
      else Some(if cell.x < NumberValue(digits) then -1 else if cell.x > NumberValue(digits) then 1 else 0)
    case Text(s) =>
      if !cell.TextCell? then None
      else Some(if cell.s == s then 0 else if Ordering.Less(Codes(cell.s), Codes(s)) then -1 else 1)
    case _ => None
  }

  /** The standings an operator asks for. */
  function Asked(op: Comparison): set<int> {
    match op
    case Less => {-1}
    case LessEqual => {-1, 0}
    case Equal => {0}
    case GreaterEqual => {0, 1}
    case Greater => {1}
    case NotEqual => {-1, 1}
  }

  /** The rows among `rows` a clause selects: OR is union, AND intersection, NOT complement, and IS NULL the absent or null. */
  ghost function Selected(p: Predicate, rows: set<RowObject>): set<RowObject> {
    match p
    case Or(l, r) => Selected(l, rows) + Selected(r, rows)
    case And(l, r) => Selected(l, rows) * Selected(r, rows)
    case Not(q) => rows - Selected(q, rows)
    case IsNull(c, false) => set row: RowObject | row in rows && (c in row ==> row[c] == NullCell)
    case IsNull(c, true) => set row: RowObject | row in rows && c in row && row[c] != NullCell
    case LikePattern(c, pattern) =>
      set row: RowObject | row in rows && c in row && row[c].TextCell? && Like.FullMatch(Like.AtomsOf(pattern), row[c].s)
    case Compare(c, Equal, Boolean(b)) => set row: RowObject | row in rows && c in row && row[c] == BoolCell(b)
    case Compare(c, NotEqual, Boolean(b)) => set row: RowObject | row in rows && c in row && row[c] == BoolCell(!b)
    case Compare(c, op, literal) =>
      set row: RowObject | row in rows && c in row && Standing(row[c], literal).Some?
                && Standing(row[c], literal).value in Asked(op)
  }

  /** Evaluation selects exactly the rows the clause means. */
  lemma {:induction false} EvaluateSelects(p: Predicate, rows: set<RowObject>)
    ensures (set row: RowObject | row in rows && Evaluate(p, row)) == Selected(p, rows)
    decreases p
  {
    hide NumberValue, Like.FullMatch, Like.ToRegex, Like.Atoms, Ordering.Less;
    match p
    case Or(l, r) =>
      EvaluateSelects(l, rows);
      EvaluateSelects(r, rows);
      assert forall row: RowObject :: row in rows ==> (Evaluate(l, row) <==> row in Selected(l, rows));
      assert forall row: RowObject :: row in rows ==> (Evaluate(r, row) <==> row in Selected(r, rows));
    case And(l, r) =>
      EvaluateSelects(l, rows);
      EvaluateSelects(r, rows);
      assert forall row: RowObject :: row in rows ==> (Evaluate(l, row) <==> row in Selected(l, rows));
      assert forall row: RowObject :: row in rows ==> (Evaluate(r, row) <==> row in Selected(r, rows));
    case Not(q) =>
      EvaluateSelects(q, rows);
      assert forall row: RowObject :: row in rows ==> (Evaluate(q, row) <==> row in Selected(q, rows));
    case IsNull(c, negated) =>
    case LikePattern(c, pattern) => Like.TranslationIsLiteral(pattern);
    case Compare(c, op, literal) =>
      forall row: RowObject | row in rows && c in row
        ensures EvaluateComparison(row[c], op, literal) <==>
                  match literal
                  case NullValue => false
                  case Boolean(b) =>
                    (op == Equal && row[c] == BoolCell(b)) || (op == NotEqual && row[c] == BoolCell(!b))
                  case _ => Standing(row[c], literal).Some? && Standing(row[c], literal).value in Asked(op)
      {
        ComparisonStands(row[c], op, literal);
      }
  }

  lemma ComparisonStands(cell: Cell, op: Comparison, literal: Literal)
    ensures EvaluateComparison(cell, op, literal) <==>
              match literal
              case NullValue => false
              case Boolean(b) => (op == Equal && cell == BoolCell(b)) || (op == NotEqual && cell == BoolCell(!b))
              case _ => Standing(cell, literal).Some? && Standing(cell, literal).value in Asked(op)
  {
    hide NumberValue, Ordering.Less;
    if literal.Text? && cell.TextCell? {
      TextOrderTotal(cell.s, literal.s);
    }
  }

  /** On cells of the literal's ordered type exactly one of <, = and > holds, and the other operators are what they say. */
  lemma ComparisonLaws(cell: Cell, literal: Literal)
    requires (literal.Number? && cell.NumberCell?) || (literal.Text? && cell.TextCell?)
    ensures var less, equal, greater := EvaluateComparison(cell, Less, literal),
                                        EvaluateComparison(cell, Equal, literal), EvaluateComparison(cell, Greater, literal);
            && (less || equal || greater) && !(less && equal) && !(less && greater) && !(equal && greater)
            && (EvaluateComparison(cell, LessEqual, literal) <==> less || equal)
            && (EvaluateComparison(cell, GreaterEqual, literal) <==> greater || equal)
            && (EvaluateComparison(cell, NotEqual, literal) <==> !equal)
    ensures literal.Number? ==> (EvaluateComparison(cell, Less, literal) <==> cell.x < NumberValue(literal.digits))
                                && (EvaluateComparison(cell, Equal, literal) <==> cell.x == NumberValue(literal.digits))
    ensures literal.Text? ==> (EvaluateComparison(cell, Equal, literal) <==> cell.s == literal.s)
                              && (EvaluateComparison(cell, Less, literal) <==> Ordering.Less(Codes(cell.s), Codes(literal.s)))
  {
    hide NumberValue, Ordering.Less;
    if literal.Text? {
      TextOrderTotal(cell.s, literal.s);
    }
  }

  predicate AllDigitChars(s: string) {
    forall i :: 0 <= i < |s| ==> IsDigit(s[i])
  }

  lemma {:induction false} AllDigitsLength(digits: string, rest: string)
    requires AllDigitChars(digits) && (rest == [] || !IsDigit(rest[0]))
    ensures DigitsLength(digits + rest) == |digits|
    decreases |digits|
  {
    if digits == [] {
      assert digits + rest == rest;
    } else {
      assert (digits + rest)[1..] == digits[1..] + rest;
      AllDigitsLength(digits[1..], rest);
    }
  }

  function NumberText(sign: string, whole: string, fraction: string): string {
    sign + (whole + PointText(fraction))
  }

  function PointText(fraction: string): string {
    if fraction == [] then "" else "." + fraction
  }

  /** An optional sign and digits, with or without a fraction. */
  predicate WfNumber(sign: string, whole: string, fraction: string) {
    && (sign == "" || sign == "+" || sign == "-")
    && AllDigitChars(whole) && AllDigitChars(fraction) && whole + fraction != []
  }

  lemma NumberSign(sign: string, whole: string, fraction: string)
    requires WfNumber(sign, whole, fraction)
    ensures SignLength(NumberText(sign, whole, fraction)) == |sign|
    ensures NumberText(sign, whole, fraction)[|sign|..] == whole + PointText(fraction)
  {
    var text := NumberText(sign, whole, fraction);
    if sign == "" {
      if whole != [] {
        assert IsDigit(whole[0]) && text[0] == whole[0];
      } else {
        assert text[0] == '.';
      }
    } else {
      assert text[0] == sign[0];
    }
  }

  lemma NumberParts(sign: string, whole: string, fraction: string)
    requires WfNumber(sign, whole, fraction)
    ensures var text, k := NumberText(sign, whole, fraction), |sign|;
            && DigitsLength(text[k..]) == |whole| && text[k..k + |whole|] == whole
            && |text| == k + |whole| + |PointText(fraction)|
            && (fraction != [] ==> text[k + |whole|] == '.' && text[k + |whole| + 1..] == fraction
                                   && DigitsLength(fraction) == |fraction| && IsDigit(fraction[0]))
            && (whole != [] ==> IsDigit(text[k]))
  {
    hide DigitsLength;
    var text, k := NumberText(sign, whole, fraction), |sign|;
    var tail := whole + PointText(fraction);
    NumberSign(sign, whole, fraction);
    AllDigitsLength(whole, PointText(fraction));
    AllDigitsLength(fraction, "");
    assert fraction + "" == fraction;
    assert text[k..k + |whole|] == text[k..][..|whole|] == whole;
    assert whole != [] ==> text[k] == text[k..][0] == whole[0];
    if fraction != [] {
      assert text[k + |whole| + 1..] == text[k..][|whole| + 1..] == fraction;
      assert text[k + |whole|] == tail[|whole|] == '.';
    }
  }

  lemma NumberIsText(sign: string, whole: string, fraction: string)
    requires WfNumber(sign, whole, fraction)
    ensures IsNumberText(NumberText(sign, whole, fraction))
  {
    hide DigitsLength, NumberText, AllDigitChars, SignLength, StartsNumber, NumberLength;
    NumberNonempty(sign, whole, fraction);
    NumberStarts(sign, whole, fraction);
    NumberEndsWhole(sign, whole, fraction);
  }

  lemma NumberStarts(sign: string, whole: string, fraction: string)
    requires WfNumber(sign, whole, fraction)
    ensures StartsNumber(NumberText(sign, whole, fraction))
  {
    hide DigitsLength, NumberText, AllDigitChars, SignLength;
    NumberSign(sign, whole, fraction);
    NumberParts(sign, whole, fraction);
    var text, k := NumberText(sign, whole, fraction), |sign|;
    if whole == [] {
      assert text[k + 1..][0] == fraction[0];
    }
  }

  lemma NumberEndsWhole(sign: string, whole: string, fraction: string)
    requires WfNumber(sign, whole, fraction)
    ensures NumberLength(NumberText(sign, whole, fraction)) == Some(|NumberText(sign, whole, fraction)|)
  {
    hide DigitsLength, NumberText, AllDigitChars, SignLength;
    NumberSign(sign, whole, fraction);
    NumberParts(sign, whole, fraction);
    var text, j := NumberText(sign, whole, fraction), |sign| + |whole|;
    if fraction == [] {
      assert At(text, j) == None;
    } else {
      assert At(text, j) == Some('.');
      assert text[j + 1..][0] == fraction[0];
    }
  }

  lemma NumberUnfolded(sign: string, whole: string, fraction: string)
    requires WfNumber(sign, whole, fraction)
    ensures NumberValue(NumberText(sign, whole, fraction))
            == if sign == "-" then -Magnitude(whole, fraction) else Magnitude(whole, fraction)
  {
    hide Magnitude, DigitsLength, AllDigitChars, SignLength;
    var text, k := NumberText(sign, whole, fraction), |sign|;
    NumberSign(sign, whole, fraction);
    NumberParts(sign, whole, fraction);
    NumberNonempty(sign, whole, fraction);
  }

  lemma NumberNonempty(sign: string, whole: string, fraction: string)
    requires WfNumber(sign, whole, fraction)
    ensures NumberText(sign, whole, fraction) != []
    ensures NumberText(sign, whole, fraction)[0] == '-' <==> sign == "-"
  {
    var text := NumberText(sign, whole, fraction);
    if sign != "" {
      assert text[0] == sign[0];
    } else if whole != [] {
      assert text[0] == whole[0] && IsDigit(whole[0]);
    }
  }

  /** A literal's value: its digits as one whole number, moved left by the length of its fraction, with its sign. */
  lemma NumberMeaning(sign: string, whole: string, fraction: string)
    requires WfNumber(sign, whole, fraction)
    ensures IsNumberText(NumberText(sign, whole, fraction))
    ensures NumberValue(NumberText(sign, whole, fraction)) * Power10(|fraction|)
            == (if sign == "-" then -1.0 else 1.0) * DigitsValue(Codes(whole + fraction)) as real
  {
    hide DigitsValue, Power10, NumberValue, NumberText, WfNumber, IsNumberText, Magnitude, Codes;
    NumberIsText(sign, whole, fraction);
    NumberUnfolded(sign, whole, fraction);
    MagnitudeMoved(whole, fraction);
    Signed(NumberValue(NumberText(sign, whole, fraction)), sign == "-", Magnitude(whole, fraction), Power10(|fraction|),
           DigitsValue(Codes(whole + fraction)) as real);
  }

  lemma MagnitudeTimes(whole: string, fraction: string)
    ensures Magnitude(whole, fraction) * Power10(|fraction|)
            == Lifted(DigitsValue(Codes(whole)) as real, Power10(|fraction|), DigitsValue(Codes(fraction)) as real)
  {
    hide DigitsValue, Power10, Codes;
    Moved(Magnitude(whole, fraction), DigitsValue(Codes(whole)) as real, DigitsValue(Codes(fraction)) as real,
          Power10(|fraction|));
  }

  lemma MagnitudeMoved(whole: string, fraction: string)
    ensures Magnitude(whole, fraction) * Power10(|fraction|) == DigitsValue(Codes(whole + fraction)) as real
  {
    hide *;
    CodesConcat(whole, fraction);
    DigitsLifted(Codes(whole), Codes(fraction), |fraction|);
    MagnitudeTimes(whole, fraction);
  }

  lemma CodesConcat(a: string, b: string)
    ensures Codes(a) + Codes(b) == Codes(a + b)
  {
  }

  lemma Moved(m: real, w: real, f: real, p: real)
    requires p > 0.0 && m == w + f / p
    ensures m * p == w * p + f
  {
    var q := f / p;
    assert q * p == f;
    assert (w + q) * p == w * p + q * p;
  }

  lemma Signed(value: real, negative: bool, m: real, p: real, total: real)
    requires value == (if negative then -m else m) && m * p == total
    ensures value * p == (if negative then -1.0 else 1.0) * total
  {
  }

  function Complement(op: Comparison): Comparison {
    match op
    case Equal => NotEqual
    case NotEqual => Equal
    case Less => GreaterEqual
    case LessEqual => Greater
    case Greater => LessEqual
    case GreaterEqual => Less
  }

  /** The column is present and of the literal's type, and the comparison is one the type supports. */
  predicate Comparable(row: RowObject, column: string, op: Comparison, literal: Literal) {
    && column in row
    && match literal
       case NullValue => false
       case Number(_) => row[column].NumberCell?
       case Text(_) => row[column].TextCell?
       case Boolean(_) => row[column].BoolCell? && (op == Equal || op == NotEqual)
  }

  /**
   NULL semantics are collapsed to false: NOT (c op l) means c with the complementary operator
   exactly on the rows where the comparison makes sense; elsewhere NOT makes it true.
   */
  lemma NegatedComparison(column: string, op: Comparison, literal: Literal, row: RowObject)
    ensures (Evaluate(Not(Compare(column, op, literal)), row) <==> Evaluate(Compare(column, Complement(op), literal), row))
            <==> Comparable(row, column, op, literal)
    ensures !Comparable(row, column, op, literal) ==> Evaluate(Not(Compare(column, op, literal)), row)
  {
    hide TextLess, NumberValue;
    if literal.Text? && column in row && row[column].TextCell? {
      TextOrderTotal(row[column].s, literal.s);
    }
  }

  lemma TextOrderTotal(a: string, b: string)
    ensures (TextLess(a, b) ==> a != b && !TextLess(b, a)) && (TextLess(a, b) || a == b || TextLess(b, a))
  {
    Ordering.LessTotal(Codes(a), Codes(b));
    if Codes(a) == Codes(b) {
      forall i | 0 <= i < |a| ensures a[i] == b[i] {
        assert Codes(a)[i] == Codes(b)[i];
      }
    }
  }

  /** LIKE on a one-line value means SQL wildcard matching of the pattern. */
  lemma LikeMeansWildcard(column: string, pattern: string, row: RowObject)
    requires column in row && row[column].TextCell? && '\n' !in row[column].s && '\r' !in row[column].s
    ensures Evaluate(LikePattern(column, pattern), row) <==> Like.Wildcard(pattern, row[column].s)
  {
    Like.CompiledLikeIsWildcard(row[column].s);
  }
}
