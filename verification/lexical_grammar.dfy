/**
 The lexical grammar of WHERE clauses, told by what each token may look like and what may follow it, and that
 the tokenizer accepts exactly the texts it describes (src/changefeed/predicate_evaluator.cpp, Tokenize).
 */
module LexicalGrammar {
  import opened Wrappers
  import opened PredicateParser
  import opened Predicates

  // ---- Characters, by their codes ----

  predicate White(c: char) {
    c as int in {9, 10, 11, 12, 13, 32}
  }

  predicate DigitChar(c: char) {
    48 <= c as int <= 57
  }

  predicate Letter(c: char) {
    65 <= c as int <= 90 || 97 <= c as int <= 122
  }

  predicate WordChar(c: char) {
    Letter(c) || DigitChar(c) || c == '_'
  }

  // ---- Tokens, by their spelling ----

  /** The word in capitals, up to the case of its letters. */
  predicate AnyCase(text: string, capitals: string) {
    |text| == |capitals|
    && forall i :: 0 <= i < |text| ==> text[i] == capitals[i] || text[i] as int == capitals[i] as int + 32
  }

  predicate IsKeyword(text: string) {
    AnyCase(text, "AND") || AnyCase(text, "OR") || AnyCase(text, "NOT") || AnyCase(text, "LIKE")
    || AnyCase(text, "IS") || AnyCase(text, "NULL") || AnyCase(text, "TRUE") || AnyCase(text, "FALSE")
  }

  predicate WordShape(text: string) {
    text != [] && (Letter(text[0]) || text[0] == '_') && forall i :: 0 <= i < |text| ==> WordChar(text[i])
  }

  ghost predicate NumberShape(text: string) {
    exists sign, whole, fraction :: NumberOf(text, sign, whole, fraction)
  }

  /** An optional sign, digits, and optionally a point with at least one digit behind it. */
  predicate NumberOf(text: string, sign: string, whole: string, fraction: string) {
    WfNumber(sign, whole, fraction) && text == NumberText(sign, whole, fraction)
  }

  ghost predicate Spelled(t: Token, text: string) {
    match t
    case KW_AND => AnyCase(text, "AND")
    case KW_OR => AnyCase(text, "OR")
    case KW_NOT => AnyCase(text, "NOT")
    case KW_LIKE => AnyCase(text, "LIKE")
    case KW_IS => AnyCase(text, "IS")
    case KW_NULL => AnyCase(text, "NULL")
    case KW_TRUE => AnyCase(text, "TRUE")
    case KW_FALSE => AnyCase(text, "FALSE")
    case IDENT(name) => text == name && WordShape(text) && !IsKeyword(text)
    case NUMBER(digits) => text == digits && NumberShape(text)
    case STRING(s) => text == "'" + DoubleQuotes(s) + "'"
    case EQ => text == "="
    case NE => text == "!=" || text == "<>"
    case LT => text == "<"
    case LE => text == "<="
    case GT => text == ">"
    case GE => text == ">="
    case LPAREN => text == "("
    case RPAREN => text == ")"
    case END => false
  }

  /** One piece of text: a token, or one character of white space. */
  ghost predicate Piece(text: string, ts: seq<Token>) {
    (ts == [] && |text| == 1 && White(text[0])) || (|ts| == 1 && Spelled(ts[0], text))
  }

  /** The piece does not go on into what follows: pieces are as long as they can be. */
  predicate Ends(text: string, ts: seq<Token>, rest: string) {
    rest == [] || ts == [] ||
      match ts[0]
      case NUMBER(_) => !DigitChar(rest[0]) && (rest[0] == '.' ==> '.' in text)
      case STRING(_) => rest[0] != '\''
      case LT => rest[0] != '=' && rest[0] != '>'
      case GT => rest[0] != '='
      case EQ => true
      case NE => true
      case LE => true
      case GE => true
      case LPAREN => true
      case RPAREN => true
      case END => true
      case _ => !WordChar(rest[0])
  }

  /** The first n characters are a piece that spells ts. */
  ghost predicate Begins(s: string, ts: seq<Token>, n: nat) {
    0 < n <= |s| && Piece(s[..n], ts) && Ends(s[..n], ts, s[n..])
  }

  // ---- The tokenizer's classes are these ----

  lemma Classes(c: char)
    ensures IsSpace(c) <==> White(c)
    ensures IsDigit(c) <==> DigitChar(c)
    ensures IsWordStart(c) <==> Letter(c) || c == '_'
    ensures IsWordChar(c) <==> WordChar(c)
  {
  }

  // ---- Words ----

  predicate Capitals(s: string) {
    forall i :: 0 <= i < |s| ==> 65 <= s[i] as int <= 90
  }

  lemma LowerIs(word: string, lower: string, capitals: string)
    requires |lower| == |capitals| && Capitals(capitals)
    requires forall i :: 0 <= i < |lower| ==> lower[i] as int == capitals[i] as int + 32
    ensures ToLower(word) == lower <==> AnyCase(word, capitals)
  {
    if ToLower(word) == lower {
      forall i | 0 <= i < |word| ensures word[i] == capitals[i] || word[i] as int == capitals[i] as int + 32 {
        assert ToLower(word)[i] == Lower(word[i]) == lower[i];
      }
    }
    if AnyCase(word, capitals) {
      forall i | 0 <= i < |word| ensures ToLower(word)[i] == lower[i] {
        assert Lower(word[i]) == lower[i];
      }
      assert ToLower(word) == lower;
    }
  }

  predicate IsWordToken(t: Token) {
    t.IDENT? || t.KW_AND? || t.KW_OR? || t.KW_NOT? || t.KW_LIKE? || t.KW_IS? || t.KW_NULL? || t.KW_TRUE? || t.KW_FALSE?
  }

  lemma Keywords(word: string)
    ensures ToLower(word) == "and" <==> AnyCase(word, "AND")
    ensures ToLower(word) == "or" <==> AnyCase(word, "OR")
    ensures ToLower(word) == "not" <==> AnyCase(word, "NOT")
    ensures ToLower(word) == "like" <==> AnyCase(word, "LIKE")
    ensures ToLower(word) == "is" <==> AnyCase(word, "IS")
    ensures ToLower(word) == "null" <==> AnyCase(word, "NULL")
    ensures ToLower(word) == "true" <==> AnyCase(word, "TRUE")
    ensures ToLower(word) == "false" <==> AnyCase(word, "FALSE")
  {
    hide ToLower, AnyCase;
    LowerIs(word, "and", "AND");
    LowerIs(word, "or", "OR");
    LowerIs(word, "not", "NOT");
    LowerIs(word, "like", "LIKE");
    LowerIs(word, "is", "IS");
    LowerIs(word, "null", "NULL");
    LowerIs(word, "true", "TRUE");
    LowerIs(word, "false", "FALSE");
  }

  lemma WordToken(word: string, t: Token)
    requires WordShape(word)
    ensures KeywordOrIdent(word) == t <==> IsWordToken(t) && Spelled(t, word)
  {
    hide ToLower, AnyCase, WordShape;
    Keywords(word);
  }

  lemma AnyCaseIsWord(text: string, capitals: string)
    requires AnyCase(text, capitals) && capitals != [] && Capitals(capitals)
    ensures WordShape(text)
  {
    forall i | 0 <= i < |text| ensures Letter(text[i]) {
    }
  }

  lemma SpelledIsWord(t: Token, text: string)
    requires IsWordToken(t) && Spelled(t, text)
    ensures WordShape(text)
  {
    hide AnyCase, WordShape;
    match t
    case IDENT(_) =>
    case KW_AND => AnyCaseIsWord(text, "AND");
    case KW_OR => AnyCaseIsWord(text, "OR");
    case KW_NOT => AnyCaseIsWord(text, "NOT");
    case KW_LIKE => AnyCaseIsWord(text, "LIKE");
    case KW_IS => AnyCaseIsWord(text, "IS");
    case KW_NULL => AnyCaseIsWord(text, "NULL");
    case KW_TRUE => AnyCaseIsWord(text, "TRUE");
    case KW_FALSE => AnyCaseIsWord(text, "FALSE");
  }

  /** A word token begins the text exactly where the tokenizer cuts a word. */
  lemma WordBegins(s: string, t: Token, n: nat)
    requires s != [] && IsWordToken(t)
    ensures Begins(s, [t], n) <==>
              IsWordStart(s[0]) && n == WordLength(s) && n > 0 && KeywordOrIdent(s[..n]) == t
  {
    hide KeywordOrIdent, Spelled, WordLength;
    if Begins(s, [t], n) {
      var word := s[..n];
      SpelledIsWord(t, word);
      WordToken(word, t);
      Classes(s[0]);
      WordRun(word);
      assert s == word + s[n..];
      if n < |s| {
        Classes(s[n]);
      }
      WordLengthBefore(word, s[n..]);
    }
    if IsWordStart(s[0]) && n == WordLength(s) && n > 0 && KeywordOrIdent(s[..n]) == t {
      var word := s[..n];
      forall i | 0 <= i < |word| ensures WordChar(word[i]) {
        Classes(word[i]);
      }
      Classes(s[0]);
      WordToken(word, t);
      if n < |s| {
        Classes(s[n]);
      }
    }
  }

  lemma {:induction false} WordRun(word: string)
    requires forall i :: 0 <= i < |word| ==> WordChar(word[i])
    ensures WordLength(word) == |word|
    decreases |word|
  {
    if word != [] {
      Classes(word[0]);
      WordRun(word[1..]);
    }
  }

  // ---- Numbers ----

  /** Where the tokenizer ends a number it has read one, and the text does not go on with it. */
  lemma NumberRead(s: string)
    requires StartsNumber(s) && NumberLength(s).Some?
    ensures var n := NumberLength(s).value; 0 < n <= |s| && NumberShape(s[..n]) && Ends(s[..n], [NUMBER(s[..n])], s[n..])
  {
    hide DigitsLength, NumberLength, StartsNumber, NumberShape;
    NumberLexedWritable(s);
    NumberShaped(s[..NumberLength(s).value]);
    if NumberLength(s).value < |s| {
      NumberStops(s);
    }
  }

  lemma NumberStops(s: string)
    requires NumberLength(s).Some? && NumberLength(s).value < |s|
    ensures var n := NumberLength(s).value; !DigitChar(s[n]) && (s[n] == '.' ==> '.' in s[..n])
  {
    hide DigitsLength;
    var j := SignLength(s) + DigitsLength(s[SignLength(s)..]);
    var n := NumberLength(s).value;
    if At(s, j) != Some('.') {
      assert s[n] == s[SignLength(s)..][n - SignLength(s)];
    } else {
      assert s[n] == s[j + 1..][n - (j + 1)];
      assert s[..n][j] == '.';
    }
  }

  lemma NumberShaped(d: string)
    requires IsNumberText(d)
    ensures NumberShape(d)
  {
    hide DigitsLength, WfNumber, NumberText;
    var k := SignLength(d);
    var j := k + DigitsLength(d[k..]);
    assert At(d, j) == Some('.') || j == |d|;
    if j == |d| {
      WholeShaped(d);
    } else {
      PointShaped(d);
    }
  }

  lemma SignText(s: string)
    ensures s[..SignLength(s)] == "" || s[..SignLength(s)] == "+" || s[..SignLength(s)] == "-"
  {
    if SignLength(s) == 1 {
      assert s[..1] == [s[0]];
    }
  }

  lemma DigitsRead(s: string)
    ensures AllDigitChars(s[..DigitsLength(s)])
  {
  }

  lemma WholeShaped(d: string)
    requires StartsNumber(d) && SignLength(d) + DigitsLength(d[SignLength(d)..]) == |d|
    ensures NumberOf(d, d[..SignLength(d)], d[SignLength(d)..], "")
  {
    hide DigitsLength, AllDigitChars;
    var k := SignLength(d);
    SignText(d);
    DigitsRead(d[k..]);
    assert d[k..][..|d| - k] == d[k..];
    assert AllDigitChars("") by { DigitsRead(""); assert ""[..DigitsLength("")] == ""; }
    assert k < |d|;
    assert d == d[..k] + d[k..] + "";
  }

  lemma PointShaped(d: string)
    requires IsNumberText(d)
    requires At(d, SignLength(d) + DigitsLength(d[SignLength(d)..])) == Some('.')
    ensures NumberShape(d)
  {
    hide DigitsLength, AllDigitChars;
    var k := SignLength(d);
    var w := DigitsLength(d[k..]);
    var j := k + w;
    var sign, whole, fraction := d[..k], d[k..j], d[j + 1..];
    SignText(d);
    DigitsRead(d[k..]);
    assert whole == d[k..][..w];
    DigitsRead(fraction);
    assert fraction[..|fraction|] == fraction;
    assert d == sign + whole + ("." + fraction);
    assert whole + fraction != [];
    assert PointText(fraction) == "." + fraction;
    hide IsNumberText, StartsNumber, NumberLength, At;
    assert NumberOf(d, sign, whole, fraction);
  }

  /** A number and what may follow it: the tokenizer reads exactly that number. */
  lemma NumberFollowed(text: string, rest: string)
    requires NumberShape(text) && Ends(text, [NUMBER(text)], rest)
    ensures text != [] && StartsNumber(text + rest) && NumberLength(text + rest) == Some(|text|)
  {
    hide DigitsLength, NumberText, SignLength;
    var sign, whole, fraction :| NumberOf(text, sign, whole, fraction);
    NumberNonempty(sign, whole, fraction);
    NumberSign(sign, whole, fraction);
    NumberParts(sign, whole, fraction);
    NumberIsText(sign, whole, fraction);
    if rest != [] { Classes(rest[0]); }
    if fraction == [] {
      NoPoint(sign, whole);
      NumberLengthBefore(text, rest);
    } else {
      FractionFollowed(sign, whole, fraction, rest);
    }
  }

  lemma NoPoint(sign: string, whole: string)
    requires WfNumber(sign, whole, "")
    ensures '.' !in NumberText(sign, whole, "")
  {
    var text := NumberText(sign, whole, "");
    forall i | 0 <= i < |text| ensures text[i] != '.' {
      if i >= |sign| {
        assert text[i] == whole[i - |sign|];
      }
    }
  }

  lemma FractionFollowed(sign: string, whole: string, fraction: string, rest: string)
    requires WfNumber(sign, whole, fraction) && fraction != []
    requires rest == [] || !IsDigit(rest[0])
    ensures var text := NumberText(sign, whole, fraction);
            StartsNumber(text + rest) && NumberLength(text + rest) == Some(|text|)
  {
    hide *;
    var text, j := NumberText(sign, whole, fraction), |sign| + |whole|;
    NumberSign(sign, whole, fraction);
    NumberStarts(sign, whole, fraction);
    NumberNonempty(sign, whole, fraction);
    NumberParts(sign, whole, fraction);
    PointSize(fraction);
    assert DigitsLength(fraction + rest) == |fraction| by { FractionDigits(sign, whole, fraction, rest); }
    assert At(text, j) == Some('.') && DigitAt(text, j + 1) by {
      PointAt(text, j, fraction);
    }
    StartsWith(text, rest);
    EndsInFraction(text, rest, j);
  }

  lemma PointSize(fraction: string)
    requires fraction != []
    ensures |PointText(fraction)| == 1 + |fraction|
  {
  }

  lemma FractionDigits(sign: string, whole: string, fraction: string, rest: string)
    requires WfNumber(sign, whole, fraction)
    requires rest == [] || !IsDigit(rest[0])
    ensures DigitsLength(fraction + rest) == |fraction|
  {
    hide DigitsLength, AllDigitChars;
    AllDigitsLength(fraction, rest);
  }

  lemma PointAt(text: string, j: nat, fraction: string)
    requires j < |text| && text[j] == '.' && text[j + 1..] == fraction && fraction != [] && IsDigit(fraction[0])
    ensures At(text, j) == Some('.') && DigitAt(text, j + 1)
  {
    assert text[j + 1] == text[j + 1..][0];
  }

  /** What makes the tokenizer try a number is in its first characters. */
  lemma StartsWith(text: string, rest: string)
    requires text != [] && StartsNumber(text)
    ensures StartsNumber(text + rest) && SignLength(text + rest) == SignLength(text)
  {
  }

  lemma EndsInFraction(text: string, rest: string, j: nat)
    requires text != [] && j == SignLength(text) + DigitsLength(text[SignLength(text)..])
    requires At(text, j) == Some('.') && DigitAt(text, j + 1) && DigitsLength(text[j + 1..] + rest) == |text| - (j + 1)
    ensures NumberLength(text + rest) == Some(|text|)
  {
    hide DigitsLength;
    var s, k := text + rest, SignLength(text);
    assert SignLength(s) == k;
    assert s[k..] == text[k..] + rest;
    DigitsStop(text[k..], rest);
    assert s[j + 1..] == text[j + 1..] + rest;
    assert s[j] == '.' && s[j + 1] == text[j + 1];
  }

  /** Digits that end inside a text end there whatever follows the text. */
  lemma {:induction false} DigitsStop(d: string, rest: string)
    requires DigitsLength(d) < |d|
    ensures DigitsLength(d + rest) == DigitsLength(d)
    decreases |d|
  {
    assert (d + rest)[0] == d[0];
    if IsDigit(d[0]) {
      assert (d + rest)[1..] == d[1..] + rest;
      DigitsStop(d[1..], rest);
    }
  }

  // ---- Strings ----

  lemma {:induction false} QuotedRead(s: string)
    requires QuotedAt(s).Some?
    ensures var (text, n) := QuotedAt(s).value;
            s[..n] == DoubleQuotes(text) + "'" && (n == |s| || s[n] != '\'')
    decreases |s|
  {
    hide DoubleQuotes;
    var (text, n) := QuotedAt(s).value;
    DoubleQuotesStep(text);
    if s[0] != '\'' {
      QuotedRead(s[1..]);
      assert s[..n] == [s[0]] + s[1..][..n - 1];
    } else if |s| > 1 && s[1] == '\'' {
      QuotedRead(s[2..]);
      assert s[..n] == ['\'', '\''] + s[2..][..n - 2];
    }
  }

  lemma StringBegins(s: string, text: string, n: nat)
    requires s != []
    ensures Begins(s, [STRING(text)], n) <==>
              s[0] == '\'' && n > 0 && QuotedAt(s[1..]) == Some((text, n - 1))
  {
    hide QuotedAt, DoubleQuotes;
    if Begins(s, [STRING(text)], n) {
      assert s == s[..n] + s[n..];
      assert s[0] == s[..n][0] == '\'';
      assert s[1..] == DoubleQuotes(text) + "'" + s[n..];
      QuotedPrinted(text, s[n..]);
    }
    if s[0] == '\'' && n > 0 && QuotedAt(s[1..]) == Some((text, n - 1)) {
      QuotedRead(s[1..]);
      assert s[..n] == [s[0]] + s[1..][..n - 1];
      assert s[..n] == "'" + DoubleQuotes(text) + "'";
    }
  }

  // ---- Operators ----

  predicate IsOperator(t: Token) {
    t.EQ? || t.NE? || t.LT? || t.LE? || t.GT? || t.GE? || t.LPAREN? || t.RPAREN?
  }

  lemma OperatorBegins(s: string, t: Token, n: nat)
    requires s != [] && IsOperator(t)
    ensures Begins(s, [t], n) <==> OperatorAt(s) == Some((t, n))
  {
    if Begins(s, [t], n) {
      assert s == s[..n] + s[n..];
      assert s[0] == s[..n][0];
      assert n == 2 ==> s[1] == s[..n][1];
      assert n < |s| ==> s[n] == s[n..][0];
    }
    if OperatorAt(s) == Some((t, n)) {
      assert n == 1 ==> s[..n] == [s[0]];
      assert n == 2 ==> s[..n] == [s[0], s[1]];
      assert n < |s| ==> s[n..][0] == s[n];
    }
  }

  // ---- One piece ----

  /** The first character tells the kind of piece. */
  lemma FirstCharacter(s: string, ts: seq<Token>, n: nat)
    requires Begins(s, ts, n)
    ensures ts == [] ==> IsSpace(s[0]) && n == 1
    ensures ts != [] ==>
              && !IsSpace(s[0])
              && (IsWordStart(s[0]) <==> IsWordToken(ts[0]))
              && (s[0] == '\'' <==> ts[0].STRING?)
              && (ts[0].NUMBER? ==> StartsNumber(s) && NumberLength(s) == Some(n) && ts[0] == NUMBER(s[..n]))
              && (!ts[0].NUMBER? && !IsWordToken(ts[0]) ==> !StartsNumber(s))
  {
    hide NumberShape, AnyCase, WordShape, IsKeyword, NumberLength, StartsNumber;
    Classes(s[0]);
    assert s == s[..n] + s[n..] && s[0] == s[..n][0];
    if ts != [] {
      var t := ts[0];
      if IsWordToken(t) {
        SpelledIsWord(t, s[..n]);
        WordStarts(s[..n]);
      } else if t.NUMBER? {
        NumberFollowed(s[..n], s[n..]);
        NumberStart(s);
        assert !IsWordStart(s[0]) && s[0] != '\'' by { NumberFirst(s); }
      } else {
        NotNumber(s);
      }
    }
  }

  lemma WordStarts(word: string)
    requires WordShape(word)
    ensures IsWordStart(word[0]) && word[0] != '\'' && !IsSpace(word[0])
  {
  }

  lemma NumberFirst(s: string)
    requires StartsNumber(s)
    ensures s != [] && s[0] != '\''
  {
  }

  /** The tokenizer's next lexeme is exactly the piece the grammar finds there. */
  lemma LexemeExactly(s: string, ts: seq<Token>, n: nat)
    requires s != []
    ensures LexemeAt(s) == Some((ts, n)) <==> Begins(s, ts, n)
  {
    if Begins(s, ts, n) {
      PieceIsLexed(s, ts, n);
    }
    if LexemeAt(s) == Some((ts, n)) {
      LexedIsPiece(s, ts, n);
    }
  }

  lemma PieceIsLexed(s: string, ts: seq<Token>, n: nat)
    requires s != [] && Begins(s, ts, n)
    ensures LexemeAt(s) == Some((ts, n))
  {
    hide Begins, NumberLength, StartsNumber, WordLength, QuotedAt, KeywordOrIdent, OperatorAt;
    FirstCharacter(s, ts, n);
    PieceSize(s, ts, n);
    if ts != [] {
      var t := ts[0];
      assert ts == [t];
      if IsWordToken(t) {
        WordBegins(s, t, n);
      } else if t.STRING? {
        StringBegins(s, t.text, n);
      } else if !t.NUMBER? {
        OperatorBegins(s, t, n);
      }
    }
  }

  lemma PieceSize(s: string, ts: seq<Token>, n: nat)
    requires Begins(s, ts, n)
    ensures |ts| <= 1 && 0 < n <= |s| && (ts != [] ==> !ts[0].END?)
    ensures ts != [] ==> IsWordToken(ts[0]) || ts[0].STRING? || ts[0].NUMBER? || IsOperator(ts[0])
  {
  }

  lemma LexedIsPiece(s: string, ts: seq<Token>, n: nat)
    requires s != [] && LexemeAt(s) == Some((ts, n))
    ensures Begins(s, ts, n)
  {
    hide NumberLength, StartsNumber, WordLength, QuotedAt, KeywordOrIdent, OperatorAt, Spelled, Begins;
    Classes(s[0]);
    if IsSpace(s[0]) {
      SpaceBegins(s);
    } else if IsWordStart(s[0]) {
      WordNonempty(s);
      WordTokenKind(s[..n]);
      WordBegins(s, ts[0], n);
    } else if StartsNumber(s) {
      NumberRead(s);
      NumberBegins(s, n);
    } else if s[0] == '\'' {
      StringBegins(s, ts[0].text, n);
    } else {
      OperatorKind(s);
      OperatorBegins(s, ts[0], n);
    }
  }

  lemma SpaceBegins(s: string)
    requires s != [] && White(s[0])
    ensures Begins(s, [], 1)
  {
  }

  lemma NumberBegins(s: string, n: nat)
    requires 0 < n <= |s| && NumberShape(s[..n]) && Ends(s[..n], [NUMBER(s[..n])], s[n..])
    ensures Begins(s, [NUMBER(s[..n])], n)
  {
  }

  lemma WordTokenKind(word: string)
    ensures IsWordToken(KeywordOrIdent(word))
  {
    hide ToLower;
  }

  lemma OperatorKind(s: string)
    requires s != []
    ensures OperatorAt(s).Some? ==> IsOperator(OperatorAt(s).value.0)
  {
  }

  // ---- The whole text ----

  /** The text falls into pieces that spell the tokens in order. */
  ghost predicate Spelling(s: string, ts: seq<Token>)
    decreases |s|, 1
  {
    if s == [] then ts == [] else exists n: nat, head :: PieceThen(s, ts, head, n)
  }

  ghost predicate PieceThen(s: string, ts: seq<Token>, head: seq<Token>, n: nat)
    requires s != []
    decreases |s|, 0
  {
    0 < n <= |s| && Begins(s, head, n) && head <= ts && Spelling(s[n..], ts[|head|..])
  }

  /** The tokenizer accepts a text, with these tokens, exactly when the lexical grammar spells them so. */
  lemma {:induction false} LexExactly(s: string, ts: seq<Token>)
    ensures Lex(s) == Some(ts + [END]) <==> Spelling(s, ts)
    decreases |s|
  {
    hide Lex, Spelling;
    if Spelling(s, ts) {
      SpelledIsLexed(s, ts);
    }
    if Lex(s) == Some(ts + [END]) {
      LexedIsSpelled(s, ts);
    }
  }

  lemma {:induction false} SpelledIsLexed(s: string, ts: seq<Token>)
    requires Spelling(s, ts)
    ensures Lex(s) == Some(ts + [END])
    decreases |s|
  {
    hide LexemeAt, Begins;
    if s == [] {
      assert ts + [END] == [END];
    } else {
      var n: nat, head :| PieceThen(s, ts, head, n);
      BeginsSize(s, head, n);
      LexemeExactly(s, head, n);
      SpelledIsLexed(s[n..], ts[|head|..]);
      assert head + (ts[|head|..] + [END]) == ts + [END];
    }
  }

  lemma {:induction false} LexedIsSpelled(s: string, ts: seq<Token>)
    requires Lex(s) == Some(ts + [END])
    ensures Spelling(s, ts)
    decreases |s|
  {
    hide LexemeAt, Begins;
    if s == [] {
      assert |ts + [END]| == 1;
    } else {
      var (head, n) := LexemeAt(s).value;
      var more := Lex(s[n..]).value;
      LexEnds(s[n..]);
      var tail := more[..|more| - 1];
      WithoutLast(head, more, ts);
      LexemeExactly(s, head, n);
      hide Lex;
      LexedIsSpelled(s[n..], tail);
      assert PieceThen(s, ts, head, n);
    }
  }

  lemma WithoutLast(head: seq<Token>, more: seq<Token>, ts: seq<Token>)
    requires more != [] && more[|more| - 1] == END && head + more == ts + [END]
    ensures var tail := more[..|more| - 1];
            more == tail + [END] && ts == head + tail && ts[|head|..] == tail && head <= ts
  {
    var tail := more[..|more| - 1];
    assert ts == (head + more)[..|head + more| - 1] == head + tail;
  }

  lemma BeginsSize(s: string, head: seq<Token>, n: nat)
    requires Begins(s, head, n)
    ensures 0 < n <= |s|
  {
  }

  lemma LexEnds(s: string)
    requires Lex(s).Some?
    ensures Lex(s).value != [] && Lex(s).value[|Lex(s).value| - 1] == END
  {
    LexedWritable(s);
  }
}
