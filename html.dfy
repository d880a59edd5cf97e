/** Shared vocabulary of the model: the markup tree every component works on,
    the failure outcome of Ruby code that raises, and the character classes
    behind Ruby's `\s` and ActiveSupport's `blank?`. */
module Html {

  /** A markup node: an element with a qualified name, its attributes and its
      ordered children, or a text node. */
  datatype Node =
    | Element(name: string, attrs: map<string, string>, children: seq<Node>)
    | Text(text: string)

  /** The result of Ruby code that may raise: the value, or `Raised` when an
      exception escapes (a nil receiver, a nil argument to `<<`). */
  datatype Result<T> = Ok(value: T) | Raised {
    predicate IsFailure() { Raised? }
    function PropagateFailure<U>(): Result<U> requires IsFailure() { Raised }
    function Extract(): T requires !IsFailure() { value }
  }

  /** A value that may be Ruby's `nil`. */
  datatype Option<T> = None | Some(value: T)

  /** Name Nokogiri reports for the document node (the parent of a root element). */
  const DocumentName: string := "document"

  /** Ruby's regular-expression `\s`: space, tab, line feed, vertical tab, form feed, carriage return. */
  predicate IsRegexSpace(c: char) {
    c == ' ' || c == '\t' || c == '\n' || c == '\U{000B}' || c == '\U{000C}' || c == '\r'
  }

  /** `[[:space:]]` as ActiveSupport's `blank?` uses it (Unicode white space). */
  predicate IsBlankSpace(c: char) {
    IsRegexSpace(c) || c == '\U{0085}' || c == '\U{00A0}' || c == '\U{1680}'
    || ('\U{2000}' <= c <= '\U{200A}') || c == '\U{2028}' || c == '\U{2029}'
    || c == '\U{202F}' || c == '\U{205F}' || c == '\U{3000}'
  }

  /** ActiveSupport `String#present?`: some character is not white space. */
  predicate Present(s: string) {
    exists i | 0 <= i < |s| :: !IsBlankSpace(s[i])
  }

  /** `node[key].present?`: the attribute exists and is not blank. */
  predicate AttrPresent(attrs: map<string, string>, key: string) {
    key in attrs && Present(attrs[key])
  }

  /** `s` starts with `p`. */
  predicate StartsWith(s: string, p: string) {
    |p| <= |s| && s[..|p|] == p
  }

  /** `s` ends with `p`. */
  predicate EndsWith(s: string, p: string) {
    |p| <= |s| && s[|s| - |p|..] == p
  }

  /** `s` occurs in `t` (XPath `contains(t, s)`). */
  predicate IsSubstring(s: string, t: string) {
    exists i | 0 <= i <= |t| - |s| :: OccursAt(s, t, i)
  }

  /** `s` occurs in `t` at offset `i`. */
  predicate OccursAt(s: string, t: string, i: int) {
    0 <= i <= |t| - |s| && t[i..i + |s|] == s
  }

  /** ASCII lower-casing of one character. */
  function LowerChar(c: char): (r: char)
    ensures 'A' <= c <= 'Z' ==> r as int == c as int + 32
    ensures !('A' <= c <= 'Z') ==> r == c
  {
    if 'A' <= c <= 'Z' then (c as int + 32) as char else c
  }

  /** ASCII lower-casing of a string (Ruby `downcase` on ASCII names). */
  function Lower(s: string): (r: string)
    ensures |r| == |s|
    ensures forall i :: 0 <= i < |s| ==> r[i] == LowerChar(s[i])
  {
    if s == [] then [] else [LowerChar(s[0])] + Lower(s[1..])
  }

  /** Decimal digits of a natural number (Ruby `Integer#to_s`). */
  function NatToString(n: nat): (r: string)
    ensures |r| > 0
    ensures forall i :: 0 <= i < |r| ==> '0' <= r[i] <= '9'
    decreases n
  {
    if n < 10 then [DigitChar(n)] else NatToString(n / 10) + [DigitChar(n % 10)]
  }

  function DigitChar(d: nat): (c: char)
    requires d < 10
    ensures '0' <= c <= '9' && c as int - '0' as int == d
  {
    ('0' as int + d) as char
  }

  /** The number `NatToString` spells. */
  function DigitsValue(s: string): int
    requires forall i :: 0 <= i < |s| ==> '0' <= s[i] <= '9'
  {
    if s == [] then 0 else 10 * DigitsValue(s[..|s| - 1]) + (s[|s| - 1] as int - '0' as int)
  }

  /** Reading back the digits gives the number: the attribute value written
      for a column count denotes that count. */
  lemma {:induction false} NatToStringValue(n: nat)
    ensures DigitsValue(NatToString(n)) == n
    decreases n
  {
    if n >= 10 {
      var s := NatToString(n);
      NatToStringValue(n / 10);
      assert s[..|s| - 1] == NatToString(n / 10);
    }
  }
}
