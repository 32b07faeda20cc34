/** The values a row holds, and how Python compares, orders and prints them.
    A row is a map; an absent key is the engine's MISSING marker. */
module Values {

  datatype Option<+T> = None | Some(value: T)

  datatype Value = Null | Bool(b: bool) | Int(i: int) | Str(s: string)

  type Row = map<string, Value>

  /** Reading a field; None stands for MISSING. */
  function Get(row: Row, field: string): Option<Value> {
    if field in row then Some(row[field]) else None
  }

  /** Reading a field where MISSING and a stored null mean the same. */
  function GetOrNull(row: Row, field: string): Value {
    if field in row then row[field] else Null
  }

  // ----- text -----

  /** Case folding, on ASCII letters. */
  function FoldChar(c: char): char {
    if 'A' <= c <= 'Z' then c - 'A' + 'a' else c
  }

  function Fold(s: string): (r: string)
    ensures |r| == |s|
    ensures forall k :: 0 <= k < |s| ==> r[k] == FoldChar(s[k])
  {
    seq(|s|, k requires 0 <= k < |s| => FoldChar(s[k]))
  }

  predicate IsSpace(c: char) {
    c == ' ' || ('\t' <= c <= '\r') || ('\U{1c}' <= c <= '\U{1f}')
  }

  function Digits(n: nat): string {
    if n < 10 then [('0' as int + n) as char] else Digits(n / 10) + [('0' as int + n % 10) as char]
  }

  /** str(value) */
  function Text(v: Value): string {
    match v
    case Null => "None"
    case Bool(b) => if b then "True" else "False"
    case Int(i) => if i < 0 then "-" + Digits(-i) else Digits(i)
    case Str(s) => s
  }

  /** Text for matching: a null reads as the empty text. */
  function AsText(v: Value): string {
    if v.Null? then "" else Text(v)
  }

  predicate OccursAt(text: string, part: string, i: nat) {
    i + |part| <= |text| && text[i..i + |part|] == part
  }

  predicate Contains(text: string, part: string) {
    exists i :: 0 <= i <= |text| && OccursAt(text, part, i)
  }

  predicate StartsWith(text: string, part: string) {
    |part| <= |text| && text[..|part|] == part
  }

  predicate EndsWith(text: string, part: string) {
    |part| <= |text| && text[|text| - |part|..] == part
  }

  // ----- order on text -----

  /** Lexicographic order by code point. */
  predicate StrLess(a: string, b: string) {
    if b == "" then false
    else if a == "" then true
    else if a[0] != b[0] then a[0] < b[0]
    else StrLess(a[1..], b[1..])
  }

  lemma {:induction false} StrLessTrichotomy(a: string, b: string)
    ensures StrLess(a, b) || StrLess(b, a) || a == b
    ensures !(StrLess(a, b) && StrLess(b, a))
    ensures a == b ==> !StrLess(a, b)
  {
    if a != "" && b != "" && a[0] == b[0] {
      StrLessTrichotomy(a[1..], b[1..]);
      assert a == [a[0]] + a[1..] && b == [b[0]] + b[1..];
    }
  }

  lemma {:induction false} StrLessTransitive(a: string, b: string, c: string)
    requires StrLess(a, b) && StrLess(b, c)
    ensures StrLess(a, c)
  {
    if a != "" && a[0] == b[0] == c[0] {
      StrLessTransitive(a[1..], b[1..], c[1..]);
    }
  }

  // ----- equality and comparison -----

  predicate IsNumber(v: Value) { v.Bool? || v.Int? }

  /** True is 1 and False is 0. */
  function AsInt(v: Value): int
    requires IsNumber(v)
  {
    if v.Int? then v.i else if v.b then 1 else 0
  }

  /** a == b */
  predicate PyEq(a: Value, b: Value) {
    if IsNumber(a) && IsNumber(b) then AsInt(a) == AsInt(b) else a == b
  }

  /** What comparing two operands yields; Unordered is a TypeError. */
  datatype Comparison = Less | Same | Greater | Unordered

  function CompareInt(a: int, b: int): Comparison {
    if a < b then Less else if a == b then Same else Greater
  }

  function CompareText(a: string, b: string): Comparison {
    if StrLess(a, b) then Less else if a == b then Same else Greater
  }

  /** The operands are made comparable first: numbers as numbers, two values of one type
      as they are, anything with a boolean as it is, and the rest by their text. */
  function Compare(a: Value, b: Value): Comparison {
    if IsNumber(a) && IsNumber(b) then CompareInt(AsInt(a), AsInt(b))
    else if a.Bool? || b.Bool? then Unordered
    else if a.Null? && b.Null? then Unordered
    else CompareText(Text(a), Text(b))
  }

  predicate Equals(a: Value, b: Value) {
    PyEq(a, b) || Compare(a, b) == Same
  }

  // ----- sort keys -----

  /** Booleans, then numbers, then text, and nulls last. */
  function Rank(v: Value): nat {
    match v
    case Bool(_) => 0
    case Int(_) => 1
    case Str(_) => 2
    case Null => 3
  }

  /** The ordering wrapper's __lt__. */
  predicate KeyLess(a: Value, b: Value) {
    if Rank(a) != Rank(b) then Rank(a) < Rank(b)
    else match a
      case Null => false
      case Bool(x) => !x && b.b
      case Int(x) => x < b.i
      case Str(x) => StrLess(Fold(x), Fold(b.s))
  }

  /** The sort key is a strict weak order: asymmetric, transitive, and "neither is less"
      is transitive too. */
  lemma KeyLessAsymmetric(a: Value, b: Value)
    ensures !(KeyLess(a, b) && KeyLess(b, a))
  {
    if a.Str? && b.Str? { StrLessTrichotomy(Fold(a.s), Fold(b.s)); }
  }

  lemma KeyLessTransitive(a: Value, b: Value, c: Value)
    requires KeyLess(a, b) && KeyLess(b, c)
    ensures KeyLess(a, c)
  {
    if a.Str? && b.Str? && c.Str? { StrLessTransitive(Fold(a.s), Fold(b.s), Fold(c.s)); }
  }

  lemma KeyLessNegativelyTransitive(a: Value, b: Value, c: Value)
    requires KeyLess(a, c)
    ensures KeyLess(a, b) || KeyLess(b, c)
  {
    if a.Str? && b.Str? && c.Str? {
      var x, y, z := Fold(a.s), Fold(b.s), Fold(c.s);
      StrLessTrichotomy(x, y);
      StrLessTrichotomy(y, z);
      if StrLess(y, x) && StrLess(z, y) {
        StrLessTransitive(z, y, x);
        StrLessTrichotomy(x, z);
      } else if StrLess(y, x) && StrLess(x, z) {
        StrLessTransitive(y, x, z);
      }
    }
  }

  /** Folding makes two texts one exactly when they differ in the case of letters alone. */
  lemma FoldedIff(a: string, b: string)
    ensures Fold(a) == Fold(b) <==> |a| == |b| && forall k :: 0 <= k < |a| ==> SameLetter(a[k], b[k])
  {
    if |a| == |b| && forall k :: 0 <= k < |a| ==> SameLetter(a[k], b[k]) {
      assert forall k :: 0 <= k < |a| ==> Fold(a)[k] == Fold(b)[k];
    }
    if Fold(a) == Fold(b) {
      assert |a| == |b|;
      forall k | 0 <= k < |a| ensures SameLetter(a[k], b[k]) {
        assert Fold(a)[k] == FoldChar(a[k]) && Fold(b)[k] == FoldChar(b[k]);
      }
    }
  }

  predicate SameLetter(a: char, b: char) {
    a == b || ('A' <= a <= 'Z' && b as int == a as int + 32) || ('A' <= b <= 'Z' && a as int == b as int + 32)
  }

  /** The number a string of digits writes down. */
  function Worth(digits: string): int {
    if digits == "" then 0 else 10 * Worth(digits[..|digits| - 1]) + (digits[|digits| - 1] as int - '0' as int)
  }

  /** A number's text writes that number, in digits and without a leading zero. */
  lemma {:induction false} DigitsWrite(n: nat)
    ensures Worth(Digits(n)) == n && (n > 0 ==> Digits(n)[0] != '0')
    ensures forall k :: 0 <= k < |Digits(n)| ==> '0' <= Digits(n)[k] <= '9'
  {
    var last := [('0' as int + n % 10) as char];
    if n < 10 {
      assert Worth("") == 0 && Digits(n)[..0] == "";
    } else {
      DigitsWrite(n / 10);
      assert Digits(n) == Digits(n / 10) + last && Digits(n)[..|Digits(n)| - 1] == Digits(n / 10);
    }
  }
}
