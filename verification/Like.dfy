/** LIKE patterns for text operators: the wildcards of user input are escaped, and the patterns
    then mean what the local engine means. The predicate is that of SQL-92, section 8.5, with
    the backslash as escape character. */
module Like {
  import opened Values
  import opened Query
  import opened LocalEngine

  // ----- escaping -----

  /** s.replace(c, with), for a single character. */
  function Replace(s: string, c: char, with: string): string {
    if s == "" then "" else (if s[0] == c then with else [s[0]]) + Replace(s[1..], c, with)
  }

  function EscapeLike(value: string): string {
    Replace(Replace(Replace(value, '\\', "\\\\"), '%', "\\%"), '_', "\\_")
  }

  predicate Wild(c: char) { c in {'\\', '%', '_'} }

  function EscapeChar(c: char): string { if Wild(c) then ['\\', c] else [c] }

  function Escaped(s: string): string {
    if s == "" then "" else EscapeChar(s[0]) + Escaped(s[1..])
  }

  lemma {:induction false} ReplaceConcat(a: string, b: string, c: char, with: string)
    ensures Replace(a + b, c, with) == Replace(a, c, with) + Replace(b, c, with)
  {
    if a == "" {
      assert a + b == b;
    } else {
      assert (a + b)[0] == a[0] && (a + b)[1..] == a[1..] + b;
      ReplaceConcat(a[1..], b, c, with);
    }
  }

  lemma ReplaceShort(a: char, b: char, c: char, with: string)
    ensures Replace([a], c, with) == if a == c then with else [a]
    ensures a != c && b != c ==> Replace([a, b], c, with) == [a, b]
  {
    assert [a][1..] == "" && [a, b][1..] == [b] && [b][1..] == "";
    assert Replace("", c, with) == "";
  }

  lemma EscapeOne(c: char)
    ensures EscapeLike([c]) == EscapeChar(c)
  {
    ReplaceShort(c, c, '\\', "\\\\");
    ReplaceShort('\\', '\\', '%', "\\%");
    ReplaceShort('\\', '\\', '_', "\\_");
    ReplaceShort(c, c, '%', "\\%");
    ReplaceShort('\\', '%', '_', "\\_");
    ReplaceShort(c, c, '_', "\\_");
  }

  /** Replacing the escape character first keeps the three passes from escaping each other's
      escapes: together they escape character by character. */
  lemma {:induction false} ChainedIsPerCharacter(s: string)
    ensures EscapeLike(s) == Escaped(s)
  {
    if s == "" {
    } else {
      var head, tail := [s[0]], s[1..];
      assert s == head + tail;
      ReplaceConcat(head, tail, '\\', "\\\\");
      ReplaceConcat(Replace(head, '\\', "\\\\"), Replace(tail, '\\', "\\\\"), '%', "\\%");
      ReplaceConcat(Replace(Replace(head, '\\', "\\\\"), '%', "\\%"), Replace(Replace(tail, '\\', "\\\\"), '%', "\\%"), '_', "\\_");
      EscapeOne(s[0]);
      ChainedIsPerCharacter(tail);
    }
  }

  // ----- the LIKE predicate -----

  datatype Token = Literal(c: char) | AnyOne | AnyRun

  /** A pattern is well formed when each escape character is followed by one it may escape. */
  function Parse(pattern: string): Option<seq<Token>>
    decreases |pattern|
  {
    if pattern == "" then Some([])
    else if pattern[0] == '\\' then
      if |pattern| >= 2 && Wild(pattern[1]) then Before(Literal(pattern[1]), Parse(pattern[2..])) else None
    else
      Before(if pattern[0] == '%' then AnyRun else if pattern[0] == '_' then AnyOne else Literal(pattern[0]),
             Parse(pattern[1..]))
  }

  function Before(t: Token, rest: Option<seq<Token>>): Option<seq<Token>> {
    if rest.Some? then Some([t] + rest.value) else None
  }

  /** Some way of dealing the text out to the tokens fits each of them. */
  predicate Fits(text: string, tokens: seq<Token>)
    decreases |tokens|
  {
    if tokens == [] then text == ""
    else match tokens[0]
      case Literal(c) => text != "" && text[0] == c && Fits(text[1..], tokens[1..])
      case AnyOne => text != "" && Fits(text[1..], tokens[1..])
      case AnyRun => exists k :: 0 <= k <= |text| && Fits(text[k..], tokens[1..])
  }

  predicate IsLike(text: string, pattern: string) {
    Parse(pattern).Some? && Fits(text, Parse(pattern).value)
  }

  predicate IsILike(text: string, pattern: string) {
    IsLike(Fold(text), Fold(pattern))
  }

  // ----- what escaped patterns match -----

  function Literals(s: string): seq<Token> {
    if s == "" then [] else [Literal(s[0])] + Literals(s[1..])
  }

  lemma ParseEscapedChar(c: char, rest: string)
    ensures Parse(EscapeChar(c) + rest) == Before(Literal(c), Parse(rest))
  {
    var all := EscapeChar(c) + rest;
    assert if Wild(c) then all[1] == c && all[2..] == rest else all[1..] == rest;
  }

  lemma ParsePercent(rest: string)
    ensures Parse("%" + rest) == Before(AnyRun, Parse(rest))
  {
    assert ("%" + rest)[1..] == rest;
  }

  /** An escaped value stands for its own characters, whatever follows. */
  lemma {:induction false} EscapedParses(s: string, rest: string)
    requires Parse(rest).Some?
    ensures Parse(Escaped(s) + rest) == Some(Literals(s) + Parse(rest).value)
  {
    hide Parse, EscapeChar;
    if s == "" {
      assert Escaped(s) + rest == rest && [] + Parse(rest).value == Parse(rest).value;
    } else {
      EscapedParses(s[1..], rest);
      ParseEscapedChar(s[0], Escaped(s[1..]) + rest);
      assert Escaped(s) + rest == EscapeChar(s[0]) + (Escaped(s[1..]) + rest);
      assert ([Literal(s[0])] + Literals(s[1..])) + Parse(rest).value
          == [Literal(s[0])] + (Literals(s[1..]) + Parse(rest).value);
    }
  }

  lemma {:induction false} LiteralsFit(text: string, s: string, rest: seq<Token>)
    ensures Fits(text, Literals(s) + rest) <==> StartsWith(text, s) && Fits(text[|s|..], rest)
    decreases |s|
  {
    var tokens := Literals(s) + rest;
    if s == "" {
      assert tokens == rest && text[0..] == text;
    } else {
      assert tokens[0] == Literal(s[0]) && tokens[1..] == Literals(s[1..]) + rest;
      if text != "" {
        LiteralsFit(text[1..], s[1..], rest);
        assert |s| <= |text| ==> text[1..][|s| - 1..] == text[|s|..];
        assert StartsWith(text, s) <==> text[0] == s[0] && StartsWith(text[1..], s[1..]) by {
          if text[0] == s[0] && StartsWith(text[1..], s[1..]) {
            assert text[..|s|] == [text[0]] + text[1..][..|s| - 1] == s;
          }
          if StartsWith(text, s) {
            assert text[1..][..|s| - 1] == text[..|s|][1..];
          }
        }
      }
    }
  }

  lemma AnythingFits(text: string)
    ensures Fits(text, [AnyRun])
  {
    assert [AnyRun][1..] == [] && Fits(text[|text|..], []);
  }

  function Pattern(op: Op, value: string): string
    requires op in {CONTAINS, ICONTAINS, STARTSWITH, ENDSWITH}
  {
    match op
    case STARTSWITH => EscapeLike(value) + "%"
    case ENDSWITH => "%" + EscapeLike(value)
    case _ => "%" + EscapeLike(value) + "%"
  }

  lemma PatternParses(op: Op, value: string)
    requires op in {CONTAINS, ICONTAINS, STARTSWITH, ENDSWITH}
    ensures Parse(Pattern(op, value)) == Some(
      match op
      case STARTSWITH => Literals(value) + [AnyRun]
      case ENDSWITH => [AnyRun] + Literals(value)
      case _ => [AnyRun] + (Literals(value) + [AnyRun]))
  {
    ChainedIsPerCharacter(value);
    var e := Escaped(value);
    NothingParses();
    hide Parse;
    if op.ENDSWITH? {
      EscapedParses(value, "");
      assert e + "" == e && Literals(value) + [] == Literals(value);
      ParsePercent(e);
    } else {
      EscapedParses(value, "%");
      ParsePercent(e + "%");
      assert "%" + (e + "%") == "%" + e + "%";
    }
  }

  lemma NothingParses()
    ensures Parse("") == Some([]) && Parse("%") == Some([AnyRun])
  {
    assert "%"[1..] == "" && [AnyRun] + [] == [AnyRun];
  }

  /** The three patterns match exactly the texts that contain, start with or end with the value,
      whatever wildcards and escape characters the value holds. */
  lemma PatternMeans(op: Op, text: string, value: string)
    requires op in {CONTAINS, STARTSWITH, ENDSWITH}
    ensures IsLike(text, Pattern(op, value)) <==>
      match op
      case CONTAINS => Contains(text, value)
      case STARTSWITH => StartsWith(text, value)
      case _ => EndsWith(text, value)
  {
    PatternParses(op, value);
    hide Parse, Pattern, Fits;
    if op.STARTSWITH? {
      LiteralsFit(text, value, [AnyRun]);
      if StartsWith(text, value) { AnythingFits(text[|value|..]); }
    } else {
      var rest := if op.ENDSWITH? then [] else [AnyRun];
      assert Literals(value) + [] == Literals(value);
      RunThen(text, Literals(value) + rest);
      forall k | 0 <= k <= |text|
        ensures Fits(text[k..], Literals(value) + rest) <==>
          OccursAt(text, value, k) && (op.ENDSWITH? ==> k + |value| == |text|)
      {
        FitsFrom(text, value, rest, k);
      }
      if op.ENDSWITH? && EndsWith(text, value) {
        assert OccursAt(text, value, |text| - |value|);
      }
    }
  }

  lemma RunThen(text: string, rest: seq<Token>)
    ensures Fits(text, [AnyRun] + rest) <==> exists k :: 0 <= k <= |text| && Fits(text[k..], rest)
  {
    assert ([AnyRun] + rest)[1..] == rest;
  }

  lemma FitsFrom(text: string, value: string, rest: seq<Token>, k: nat)
    requires k <= |text| && (rest == [] || rest == [AnyRun])
    ensures Fits(text[k..], Literals(value) + rest) <==>
      OccursAt(text, value, k) && (rest == [] ==> k + |value| == |text|)
  {
    LiteralsFit(text[k..], value, rest);
    if |text[k..]| >= |value| {
      assert text[k..][..|value|] == text[k..k + |value|];
      AnythingFits(text[k..][|value|..]);
    }
  }

  // ----- up to case -----

  lemma {:induction false} FoldEscaped(s: string)
    ensures Fold(Escaped(s)) == Escaped(Fold(s))
  {
    if s != "" {
      FoldEscaped(s[1..]);
      assert Fold(s)[0] == FoldChar(s[0]) && Fold(s)[1..] == Fold(s[1..]);
      assert Fold(EscapeChar(s[0])) == EscapeChar(FoldChar(s[0]));
      FoldConcat(EscapeChar(s[0]), Escaped(s[1..]));
    } else {
      assert Fold("") == "";
    }
  }

  lemma FoldConcat(a: string, b: string)
    ensures Fold(a + b) == Fold(a) + Fold(b)
  {
  }

  lemma FoldPattern(op: Op, value: string)
    requires op in {CONTAINS, ICONTAINS, STARTSWITH, ENDSWITH}
    ensures Fold(Pattern(op, value)) == Pattern(op, Fold(value))
  {
    ChainedIsPerCharacter(value);
    ChainedIsPerCharacter(Fold(value));
    FoldEscaped(value);
    var e := Escaped(value);
    assert Fold("%") == "%";
    FoldConcat(e, "%");
    FoldConcat("%", e);
    FoldConcat("%" + e, "%");
  }

  /** What the database is asked: LIKE for CONTAINS, and ILIKE for the others, of the value's
      text. */
  predicate Asked(op: Op, text: string, value: Value)
    requires op in {CONTAINS, ICONTAINS, STARTSWITH, ENDSWITH}
  {
    var pattern := Pattern(op, Text(value));
    if op.CONTAINS? then IsLike(text, pattern) else IsILike(text, pattern)
  }

  /** On a text column the database's pattern and the local engine give one answer, the
      case-blind operators on both sides up to case. */
  lemma PatternIsLocalMatch(op: Op, row: Row, field: string, text: string, value: Value)
    requires op in {CONTAINS, ICONTAINS, STARTSWITH, ENDSWITH}
    requires Get(row, field) == Some(Str(text)) && !value.Null?
    ensures MatchCondition(row, Condition(field, op, value, [])) <==> Asked(op, text, value)
  {
    PatternMeansText(op, text, Text(value));
  }

  lemma PatternMeansText(op: Op, text: string, v: string)
    requires op in {CONTAINS, ICONTAINS, STARTSWITH, ENDSWITH}
    ensures op.CONTAINS? ==> (IsLike(text, Pattern(op, v)) <==> Contains(text, v))
    ensures !op.CONTAINS? ==> (IsILike(text, Pattern(op, v)) <==>
              if op.ICONTAINS? then Contains(Fold(text), Fold(v))
              else if op.STARTSWITH? then StartsWith(Fold(text), Fold(v)) else EndsWith(Fold(text), Fold(v)))
  {
    if op.CONTAINS? {
      PatternMeans(op, text, v);
    } else {
      FoldPattern(op, v);
      assert Pattern(ICONTAINS, Fold(v)) == Pattern(CONTAINS, Fold(v));
      PatternMeans(if op.ICONTAINS? then CONTAINS else op, Fold(text), Fold(v));
    }
  }

  ghost predicate PatternAgrees(op: Op, field: string, value: Value)
    requires op in {CONTAINS, ICONTAINS, STARTSWITH, ENDSWITH}
  {
    forall row, text :: Get(row, field) == Some(Str(text)) ==>
      (MatchCondition(row, Condition(field, op, value, [])) <==> Asked(op, text, value))
  }

  /** They agree on all texts if and only if the value is not null: the database looks for the
      text "None" and the local engine for the empty one. */
  lemma PatternAgreesIff(op: Op, field: string, value: Value)
    requires op in {CONTAINS, ICONTAINS, STARTSWITH, ENDSWITH}
    ensures PatternAgrees(op, field, value) <==> !value.Null?
  {
    if value.Null? {
      NullValueDiffers(op, field);
    } else {
      forall row, text | Get(row, field) == Some(Str(text))
        ensures MatchCondition(row, Condition(field, op, value, [])) <==> Asked(op, text, value)
      {
        PatternIsLocalMatch(op, row, field, text, value);
      }
    }
  }

  /** An empty text, asked for nothing. */
  lemma NullValueDiffers(op: Op, field: string)
    requires op in {CONTAINS, ICONTAINS, STARTSWITH, ENDSWITH}
    ensures var row: Row := map[field := Str("")];
            Get(row, field) == Some(Str("")) && MatchCondition(row, Condition(field, op, Null, [])) && !Asked(op, "", Null)
  {
    PatternMeansText(op, "", "None");
    assert OccursAt("", "", 0) && Fold("") == "" && |Fold("None")| == 4;
  }
}
