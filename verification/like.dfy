/** LIKE patterns and the regular expressions they are compiled to (src/changefeed/predicate_evaluator.cpp). */
module Like {
  import opened Wrappers

  const REGEX_SPECIAL: string := "\\^$.|?*+()[]{}"

  // ---- The translation ----

  function Translated(c: char): string {
    if c == '%' then ".*"
    else if c == '_' then "."
    else if c in REGEX_SPECIAL then ['\\', c]
    else [c]
  }

  function ToRegex(pattern: string): string
    decreases |pattern|
  {
    if pattern == [] then [] else Translated(pattern[0]) + ToRegex(pattern[1..])
  }

  lemma ToRegexStep(pattern: string, i: nat)
    requires i < |pattern|
    ensures ToRegex(pattern[i..]) == Translated(pattern[i]) + ToRegex(pattern[i + 1..])
  {
    assert pattern[i..][1..] == pattern[i + 1..];
  }

  method LikePatternToRegex(pattern: string) returns (result: string)
    ensures result == ToRegex(pattern)
  {
    hide ToRegex;
    result := "";
    var i := 0;
    assert pattern[0..] == pattern;
    while i < |pattern|
      invariant 0 <= i <= |pattern|
      invariant result + ToRegex(pattern[i..]) == ToRegex(pattern)
    {
      ToRegexStep(pattern, i);
      ghost var before := result;
      var c := pattern[i];
      if c == '%' {
        result := result + ".*";
      } else if c == '_' {
        result := result + ".";
      } else if c in REGEX_SPECIAL {
        result := result + ['\\', c];
      } else {
        result := result + [c];
      }
      assert result == before + Translated(c);
      i := i + 1;
    }
    assert pattern[i..] == [];
    assert ToRegex([]) == [] by { ToRegexEmpty(); }
  }

  lemma ToRegexEmpty()
    ensures ToRegex([]) == []
  {
  }

  // ---- The fragment of ECMAScript regular expressions: literals, escaped literals, `.` and `.*` ----

  datatype Atom = Literal(c: char) | AnyOne | AnyRun

  /** The atoms a regular expression denotes, or None outside the fragment. */
  function Atoms(regex: string): Option<seq<Atom>>
    decreases |regex|
  {
    if regex == [] then Some([])
    else if regex[0] == '\\' then
      if |regex| < 2 || regex[1] !in REGEX_SPECIAL then None
      else
        var rest :- Atoms(regex[2..]); Some([Literal(regex[1])] + rest)
    else if regex[0] == '.' then
      if |regex| > 1 && regex[1] == '*' then
        var rest :- Atoms(regex[2..]); Some([AnyRun] + rest)
      else
        var rest :- Atoms(regex[1..]); Some([AnyOne] + rest)
    else if regex[0] in REGEX_SPECIAL then None
    else
      var rest :- Atoms(regex[1..]); Some([Literal(regex[0])] + rest)
  }

  /** The characters `.` does not match. */
  predicate LineTerminator(c: char) {
    c == '\n' || c == '\r'
  }

  predicate OneLine(s: string) {
    forall i :: 0 <= i < |s| ==> !LineTerminator(s[i])
  }

  /** std::regex_match: the whole subject must be consumed. */
  predicate FullMatch(atoms: seq<Atom>, s: string)
    decreases |atoms| + |s|
  {
    if atoms == [] then s == []
    else
      match atoms[0]
      case Literal(c) => s != [] && s[0] == c && FullMatch(atoms[1..], s[1..])
      case AnyOne => s != [] && !LineTerminator(s[0]) && FullMatch(atoms[1..], s[1..])
      case AnyRun =>
        FullMatch(atoms[1..], s) || (s != [] && !LineTerminator(s[0]) && FullMatch(atoms, s[1..]))
  }

  // ---- SQL wildcard matching ----

  /** `%` stands for any run of characters, `_` for any one, everything else for itself. */
  ghost predicate Wildcard(pattern: string, s: string)
    decreases |pattern|
  {
    if pattern == [] then s == []
    else if pattern[0] == '%' then exists k :: 0 <= k <= |s| && Wildcard(pattern[1..], s[k..])
    else if pattern[0] == '_' then s != [] && Wildcard(pattern[1..], s[1..])
    else s != [] && s[0] == pattern[0] && Wildcard(pattern[1..], s[1..])
  }

  /** A pattern in two parts matches a subject in two parts. */
  lemma {:induction false} WildcardConcat(a: string, b: string, s: string)
    ensures Wildcard(a + b, s) <==> exists k: nat :: SplitAt(a, b, s, k)
    decreases |a|
  {
    if a == [] {
      assert a + b == b && s[0..] == s && s[..0] == [];
      assert Wildcard(b, s) ==> SplitAt(a, b, s, 0);
    } else {
      assert (a + b)[1..] == a[1..] + b;
      if a[0] == '%' {
        RunConcat(a, b, s);
      } else if s != [] {
        WildcardConcat(a[1..], b, s[1..]);
        if k: nat :| SplitAt(a[1..], b, s[1..], k) {
          if a[0] == '_' || a[0] == s[0] {
            assert s[..k + 1][1..] == s[1..][..k] && s[1..][k..] == s[k + 1..];
            assert SplitAt(a, b, s, k + 1);
          }
        }
        if k: nat :| SplitAt(a, b, s, k) {
          assert k > 0 && s[..k][1..] == s[1..][..k - 1] && s[1..][k - 1..] == s[k..];
          assert SplitAt(a[1..], b, s[1..], k - 1);
        }
      }
    }
  }

  /** Cutting the subject at k, the first part matches a and the second b. */
  ghost predicate SplitAt(a: string, b: string, s: string, k: nat) {
    k <= |s| && Wildcard(a, s[..k]) && Wildcard(b, s[k..])
  }

  lemma {:induction false} RunConcat(a: string, b: string, s: string)
    requires a != [] && a[0] == '%'
    ensures Wildcard(a + b, s) <==> exists k: nat :: SplitAt(a, b, s, k)
    decreases |a|, 0
  {
    assert (a + b)[1..] == a[1..] + b;
    if Wildcard(a + b, s) {
      var i :| 0 <= i <= |s| && Wildcard(a[1..] + b, s[i..]);
      WildcardConcat(a[1..], b, s[i..]);
      var k: nat :| SplitAt(a[1..], b, s[i..], k);
      assert s[..i + k][i..] == s[i..][..k] && s[i..][k..] == s[i + k..];
      assert SplitAt(a, b, s, i + k);
    }
    if k: nat :| SplitAt(a, b, s, k) {
      var i :| 0 <= i <= k && Wildcard(a[1..], s[..k][i..]);
      assert s[..k][i..] == s[i..][..k - i] && s[i..][k - i..] == s[k..];
      assert SplitAt(a[1..], b, s[i..], k - i);
      WildcardConcat(a[1..], b, s[i..]);
    }
  }

  /** The one-character patterns: % matches anything, _ any one character, and every other character itself. */
  lemma WildcardOne(c: char, s: string)
    ensures Wildcard([], s) <==> s == []
    ensures Wildcard("%", s)
    ensures Wildcard("_", s) <==> |s| == 1
    ensures c != '%' && c != '_' ==> (Wildcard([c], s) <==> s == [c])
  {
    assert s[|s|..] == [] && Wildcard("%"[1..], s[|s|..]);
    assert "_"[1..] == [] && [c][1..] == [];
    if |s| == 1 {
      assert s[1..] == [];
    }
  }

  // ---- The translation means what the pattern means ----

  function AtomOf(c: char): Atom {
    if c == '%' then AnyRun else if c == '_' then AnyOne else Literal(c)
  }

  function AtomsOf(pattern: string): (atoms: seq<Atom>)
    ensures |atoms| == |pattern|
    ensures forall i :: 0 <= i < |pattern| ==> atoms[i] == AtomOf(pattern[i])
  {
    if pattern == [] then [] else [AtomOf(pattern[0])] + AtomsOf(pattern[1..])
  }

  lemma ToRegexHead(pattern: string)
    ensures ToRegex(pattern) != [] ==> ToRegex(pattern)[0] != '*'
  {
  }

  /** No pattern character acts as a metacharacter: the regular expression denotes one atom per character. */
  lemma {:induction false} TranslationIsLiteral(pattern: string)
    ensures Atoms(ToRegex(pattern)) == Some(AtomsOf(pattern))
    decreases |pattern|
  {
    if pattern != [] {
      TranslationIsLiteral(pattern[1..]);
      ToRegexHead(pattern[1..]);
      var rest := ToRegex(pattern[1..]);
      var regex := ToRegex(pattern);
      if pattern[0] == '%' {
        assert regex[2..] == rest;
      } else if pattern[0] == '_' {
        assert regex[1..] == rest;
      } else if pattern[0] in REGEX_SPECIAL {
        assert regex[2..] == rest;
      } else {
        assert regex[1..] == rest;
      }
    }
  }

  lemma OneLineHead(s: string, k: nat)
    requires 0 < k <= |s|
    ensures OneLine(s[..k]) <==> !LineTerminator(s[0]) && OneLine(s[1..][..k - 1])
  {
    var a, b := s[..k], s[1..][..k - 1];
    assert a[0] == s[0];
    assert forall i :: 0 <= i < |b| ==> b[i] == a[i + 1];
    assert forall i :: 0 < i < |a| ==> a[i] == b[i - 1];
  }

  lemma {:induction false} RunMatches(atoms: seq<Atom>, s: string)
    requires atoms != [] && atoms[0] == AnyRun
    ensures FullMatch(atoms, s) <==> exists k :: 0 <= k <= |s| && OneLine(s[..k]) && FullMatch(atoms[1..], s[k..])
    decreases |s|
  {
    if FullMatch(atoms[1..], s) {
      assert s[0..] == s && OneLine(s[..0]);
    } else if s != [] {
      RunMatches(atoms, s[1..]);
      if k :| 0 <= k <= |s[1..]| && OneLine(s[1..][..k]) && FullMatch(atoms[1..], s[1..][k..]) {
        assert s[1..][k..] == s[k + 1..];
        if !LineTerminator(s[0]) {
          OneLineHead(s, k + 1);
        }
      }
      if k :| 0 <= k <= |s| && OneLine(s[..k]) && FullMatch(atoms[1..], s[k..]) {
        assert s[0..] == s;
        assert k > 0;
        OneLineHead(s, k);
        assert s[1..][k - 1..] == s[k..];
      }
    } else {
      assert forall k :: 0 <= k <= |s| ==> s[k..] == s;
    }
  }

  lemma {:induction false} MatchImpliesWildcard(pattern: string, s: string)
    ensures FullMatch(AtomsOf(pattern), s) ==> Wildcard(pattern, s)
    ensures OneLine(s) && Wildcard(pattern, s) ==> FullMatch(AtomsOf(pattern), s)
    decreases |pattern|
  {
    if pattern != [] {
      var atoms := AtomsOf(pattern);
      assert atoms[1..] == AtomsOf(pattern[1..]);
      if pattern[0] == '%' {
        RunMatches(atoms, s);
        forall k | 0 <= k <= |s|
          ensures FullMatch(atoms[1..], s[k..]) ==> Wildcard(pattern[1..], s[k..])
          ensures OneLine(s) && Wildcard(pattern[1..], s[k..]) ==> OneLine(s[..k]) && FullMatch(atoms[1..], s[k..])
        {
          MatchImpliesWildcard(pattern[1..], s[k..]);
        }
      } else if s != [] {
        MatchImpliesWildcard(pattern[1..], s[1..]);
      }
    }
  }

  /** What evaluating LIKE computes: match the compiled regular expression against the whole subject. */
  predicate Matches(pattern: string, s: string) {
    var atoms := Atoms(ToRegex(pattern));
    atoms.Some? && FullMatch(atoms.value, s)
  }

  lemma LineEnds(s: string)
    ensures OneLine(s) <==> '\n' !in s && '\r' !in s
  {
    if !OneLine(s) {
      var i :| 0 <= i < |s| && LineTerminator(s[i]);
      assert s[i] in s;
    }
  }

  /**
   A compiled pattern only ever accepts what wildcard matching accepts, and the two agree on all
   patterns exactly for the subjects without line terminators.
   */
  lemma CompiledLikeIsWildcard(s: string)
    ensures forall pattern :: Matches(pattern, s) ==> Wildcard(pattern, s)
    ensures (forall pattern :: Matches(pattern, s) <==> Wildcard(pattern, s)) <==> '\n' !in s && '\r' !in s
  {
    LineEnds(s);
    forall pattern
      ensures Matches(pattern, s) ==> Wildcard(pattern, s)
      ensures OneLine(s) ==> (Matches(pattern, s) <==> Wildcard(pattern, s))
    {
      TranslationIsLiteral(pattern);
      MatchImpliesWildcard(pattern, s);
    }
    if !OneLine(s) {
      TranslationIsLiteral("%");
      var atoms := AtomsOf("%");
      RunMatches(atoms, s);
      assert atoms[1..] == [] && "%"[1..] == [];
      assert Wildcard("%", s) by {
        assert s[|s|..] == [] && Wildcard([], s[|s|..]);
      }
      assert !FullMatch(atoms, s) by {
        forall k | 0 <= k <= |s| && FullMatch(atoms[1..], s[k..]) ensures !OneLine(s[..k]) {
          assert k == |s| && s[..k] == s;
        }
      }
      assert !Matches("%", s);
    }
  }
}
