/** The JavaScript value coercions the controllers rely on: `Number(x)`,
    `isNaN(x)`, the falsiness of a number, `String.prototype.trim` and the
    lower-casing the user schema applies to e-mail addresses. */
module Js {

  /** A request-body field the source reads as a number. Only integral numbers
      are modelled; any text that does not parse as a number is `NonNumeric`. */
  datatype RawNumber = Undefined | Null | EmptyString | NonNumeric | Numeric(n: int)

  /** A JavaScript number after coercion. */
  datatype Num = NaN | Finite(v: int)

  /** `Number(x)`: undefined and non-numeric text give NaN, null and the empty
      string give 0. */
  function ToNumber(x: RawNumber): Num
  {
    match x
    case Undefined => NaN
    case Null => Finite(0)
    case EmptyString => Finite(0)
    case NonNumeric => NaN
    case Numeric(n) => Finite(n)
  }

  /** `isNaN(x)`, which coerces its argument with `Number` first. */
  predicate IsNaN(x: RawNumber)
  {
    ToNumber(x).NaN?
  }

  /** `!n` for a number: 0 and NaN are falsy. */
  predicate Falsy(n: Num)
  {
    n.NaN? || n.v == 0
  }

  /** The guard `!n || n <= 0` accepts exactly the positive numbers. */
  lemma PositiveGuard(n: Num)
    ensures !(Falsy(n) || n.v <= 0) <==> n.Finite? && n.v > 0
  {
  }

  /** The white-space characters `trim` removes: the ECMAScript WhiteSpace
      code points (tab, vertical tab, form feed, space, no-break space, the
      byte-order mark and the Unicode space separators) and the line
      terminators. */
  predicate IsWhitespace(c: char)
  {
    c == ' ' || c == '\t' || c == '\n' || c == '\r' || c == '\U{000B}' || c == '\U{000C}'
    || c == '\U{00A0}' || c == '\U{FEFF}' || c == '\U{1680}' || '\U{2000}' <= c <= '\U{200A}'
    || c == '\U{2028}' || c == '\U{2029}' || c == '\U{202F}' || c == '\U{205F}' || c == '\U{3000}'
  }

  /** The index of the first non-white-space character at or after `i`. */
  function SkipBlanks(s: string, i: nat): (k: nat)
    requires i <= |s|
    ensures i <= k <= |s|
    ensures forall j :: i <= j < k ==> IsWhitespace(s[j])
    ensures k == |s| || !IsWhitespace(s[k])
    decreases |s| - i
  {
    if i < |s| && IsWhitespace(s[i]) then SkipBlanks(s, i + 1) else i
  }

  /** The index just past the last non-white-space character of `s[lo..j]`. */
  function BackBlanks(s: string, lo: nat, j: nat): (k: nat)
    requires lo <= j <= |s|
    ensures lo <= k <= j
    ensures forall m :: k <= m < j ==> IsWhitespace(s[m])
    ensures k == lo || !IsWhitespace(s[k - 1])
  {
    if lo < j && IsWhitespace(s[j - 1]) then BackBlanks(s, lo, j - 1) else j
  }

  /** Where the trimmed text starts in `s`. */
  function TrimFrom(s: string): nat
  {
    SkipBlanks(s, 0)
  }

  /** `s.trim()`: `s` without its leading and trailing white space. */
  function Trim(s: string): (r: string)
    ensures r == [] || (!IsWhitespace(r[0]) && !IsWhitespace(r[|r| - 1]))
    ensures TrimFrom(s) + |r| <= |s| && r == s[TrimFrom(s)..TrimFrom(s) + |r|]
    ensures forall i :: 0 <= i < TrimFrom(s) ==> IsWhitespace(s[i])
    ensures forall i :: TrimFrom(s) + |r| <= i < |s| ==> IsWhitespace(s[i])
  {
    var lo := SkipBlanks(s, 0);
    s[lo..BackBlanks(s, lo, |s|)]
  }

  /** A string trims to nothing exactly when it is all white space. */
  lemma TrimEmptyIffBlank(s: string)
    ensures Trim(s) == "" <==> forall i :: 0 <= i < |s| ==> IsWhitespace(s[i])
  {
    if Trim(s) != "" {
      assert s[TrimFrom(s)] == Trim(s)[0];
    }
  }

  /** The lower-case form of a Basic Latin or Latin-1 upper-case letter; every
      other character is kept. */
  function LowerChar(c: char): char
  {
    if 'A' <= c <= 'Z' || ('\U{00C0}' <= c <= '\U{00DE}' && c != '\U{00D7}') then (c as int + 32) as char else c
  }

  /** The `lowercase` schema option: Basic Latin and Latin-1 upper-case letters
      become lower-case, every other character is kept. */
  function ToLower(s: string): (r: string)
    ensures |r| == |s|
    ensures forall i :: 0 <= i < |s| ==> r[i] == LowerChar(s[i])
  {
    if |s| == 0 then [] else [LowerChar(s[0])] + ToLower(s[1..])
  }

  /** Lower-casing twice is lower-casing once, so a stored (lower-cased) e-mail
      matches a query that is lower-cased again. */
  lemma ToLowerIdempotent(s: string)
    ensures ToLower(ToLower(s)) == ToLower(s)
  {
    assert forall i :: 0 <= i < |s| ==> LowerChar(LowerChar(s[i])) == LowerChar(s[i]);
  }
}
