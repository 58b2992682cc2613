/** The handful of JavaScript value semantics the task manager relies on:
    properties that may be missing or null, the `||` default idiom, loose
    equality with `false`, `String(...)`, `trim`, `toLowerCase` and
    `String.prototype.includes`. */
module Js {

  datatype Option<T> = None | Some(value: T)

  /** A property read from a stored object: missing (`undefined`), `null`,
      or present with a value. */
  datatype Prop<T> = Absent | Null | Has(value: T)

  /** A stored scalar whose type the program does not fix (a checkbox flag
      read back from storage, or a slider value that is a string or the
      number 0). */
  datatype Scalar = Bool(b: bool) | Num(n: int) | Text(s: string)

  predicate ScalarTruthy(v: Scalar) {
    match v
    case Bool(b) => b
    case Num(n) => n != 0
    case Text(s) => s != ""
  }

  // `p || d` for the property types the records use: a missing, null or
  // falsy property gives the default, any other value is kept.

  function StrOr(p: Prop<string>, d: string): string {
    if p.Has? && p.value != "" then p.value else d
  }

  function IntOr(p: Prop<int>, d: int): int {
    if p.Has? && p.value != 0 then p.value else d
  }

  function BoolOrFalse(p: Prop<bool>): bool {
    p.Has? && p.value
  }

  /** An array is always truthy, even when empty. */
  function ListOrEmpty<T>(p: Prop<seq<T>>): seq<T> {
    if p.Has? then p.value else []
  }

  function ScalarOr(p: Prop<Scalar>, d: Scalar): Scalar {
    if p.Has? && ScalarTruthy(p.value) then p.value else d
  }

  /** `p || null` for a timestamp: 0 is falsy and becomes null. */
  function IntOrNull(p: Prop<int>): Option<int> {
    if p.Has? && p.value != 0 then Some(p.value) else None
  }

  /** `String(p)` for a text property. */
  function ToStr(p: Prop<string>): string {
    match p
    case Absent => "undefined"
    case Null => "null"
    case Has(s) => s
  }

  // ---- White space, as `String.prototype.trim` and `Number(...)` see it ----

  /** The WhiteSpace and LineTerminator code points of ECMAScript. */
  predicate IsSpace(c: char) {
    c == ' ' || c == '\t' || c == '\n' || c == '\r' || c == '\U{000B}' || c == '\U{000C}'
    || c == '\U{00A0}' || c == '\U{1680}' || ('\U{2000}' <= c <= '\U{200A}')
    || c == '\U{2028}' || c == '\U{2029}' || c == '\U{202F}' || c == '\U{205F}'
    || c == '\U{3000}' || c == '\U{FEFF}'
  }

  /** Every character of `s` from `lo` up to `hi` is white space. */
  predicate SpaceIn(s: string, lo: int, hi: int) {
    forall k :: lo <= k < hi && 0 <= k < |s| ==> IsSpace(s[k])
  }

  predicate AllSpace(s: string) {
    SpaceIn(s, 0, |s|)
  }

  function TrimStart(s: string): (r: string)
    ensures |r| <= |s|
  {
    if s != [] && IsSpace(s[0]) then TrimStart(s[1..]) else s
  }

  function TrimEnd(s: string): (r: string)
    ensures |r| <= |s|
  {
    if s != [] && IsSpace(s[|s| - 1]) then TrimEnd(s[..|s| - 1]) else s
  }

  function Trim(s: string): string {
    TrimEnd(TrimStart(s))
  }

  /** `trimStart` drops a white-space prefix and stops at the first other
      character. */
  lemma {:induction false} TrimStartDrops(s: string)
    ensures var r := TrimStart(s);
      && r == s[|s| - |r|..] && SpaceIn(s, 0, |s| - |r|) && (r == [] || !IsSpace(r[0]))
  {
    if s != [] && IsSpace(s[0]) {
      TrimStartDrops(s[1..]);
      var r := TrimStart(s[1..]);
      assert forall k :: 1 <= k < |s| - |r| ==> s[k] == s[1..][k - 1];
    }
  }

  /** `trimEnd` drops a white-space suffix and stops at the last other
      character. */
  lemma {:induction false} TrimEndDrops(s: string)
    ensures var r := TrimEnd(s);
      && r == s[..|r|] && SpaceIn(s, |r|, |s|) && (r == [] || !IsSpace(r[|r| - 1]))
  {
    if s != [] && IsSpace(s[|s| - 1]) {
      var p := s[..|s| - 1];
      TrimEndDrops(p);
      var r := TrimEnd(p);
      assert forall k :: |r| <= k < |s| - 1 ==> s[k] == p[k];
      assert p[..|r|] == s[..|r|];
    }
  }

  /** `trim` removes exactly the white space at both ends: the result is a
      slice of the input, everything cut off is white space, and the result
      neither starts nor ends with white space. */
  lemma {:induction false} TrimIsSlice(s: string)
    ensures exists i :: 0 <= i <= i + |Trim(s)| <= |s| && Trim(s) == s[i..i + |Trim(s)|]
                        && SpaceIn(s, 0, i) && SpaceIn(s, i + |Trim(s)|, |s|)
    ensures Trim(s) == [] || (!IsSpace(Trim(s)[0]) && !IsSpace(Trim(s)[|Trim(s)| - 1]))
  {
    var t := TrimStart(s);
    var r := TrimEnd(t);
    var i := |s| - |t|;
    TrimAt(s, t, r, i);
  }

  lemma {:induction false} TrimAt(s: string, t: string, r: string, i: int)
    requires t == TrimStart(s) && r == TrimEnd(t) && i == |s| - |t|
    ensures 0 <= i <= i + |r| <= |s| && r == s[i..i + |r|]
    ensures SpaceIn(s, 0, i) && SpaceIn(s, i + |r|, |s|)
    ensures r == [] || (!IsSpace(r[0]) && !IsSpace(r[|r| - 1]))
  {
    TrimStartDrops(s);
    TrimEndDrops(t);
    assert forall k :: i + |r| <= k < |s| ==> s[k] == t[k - i];
    if r != [] {
      assert r[0] == t[0];
    }
  }

  /** The trimmed text is empty exactly when the input is all white space. */
  lemma {:induction false} TrimEmptyIff(s: string)
    ensures Trim(s) == [] <==> AllSpace(s)
  {
    var t := TrimStart(s);
    var r := TrimEnd(t);
    var i := |s| - |t|;
    TrimAt(s, t, r, i);
    if r != [] {
      assert !IsSpace(s[i]);
    }
  }

  // ---- Case-insensitive search ----

  /** `toLowerCase` on the ASCII letters. */
  function LowerChar(c: char): char {
    if 'A' <= c <= 'Z' then (c as int + 32) as char else c
  }

  function ToLower(s: string): (r: string)
    ensures |r| == |s|
    ensures forall k :: 0 <= k < |s| ==> r[k] == LowerChar(s[k])
  {
    seq(|s|, k requires 0 <= k < |s| => LowerChar(s[k]))
  }

  predicate OccursAt(s: string, q: string, i: nat) {
    i + |q| <= |s| && s[i..i + |q|] == q
  }

  /** `s.includes(q)`. */
  function Includes(s: string, q: string): (r: bool)
    ensures r <==> exists i: nat :: OccursAt(s, q, i)
  {
    if |q| > |s| then
      false
    else if s[..|q|] == q then
      assert OccursAt(s, q, 0);
      true
    else
      var rest := Includes(s[1..], q);
      assert forall i: nat :: OccursAt(s[1..], q, i) <==> OccursAt(s, q, i + 1) by {
        forall i: nat ensures OccursAt(s[1..], q, i) <==> OccursAt(s, q, i + 1) {
          if i + |q| <= |s| - 1 {
            assert s[1..][i..i + |q|] == s[i + 1..i + 1 + |q|];
          }
        }
      }
      assert rest ==> (exists i: nat :: OccursAt(s, q, i)) by {
        if rest {
          var i: nat :| OccursAt(s[1..], q, i);
          assert OccursAt(s, q, i + 1);
        }
      }
      assert (exists i: nat :: OccursAt(s, q, i)) ==> rest by {
        if exists i: nat :: OccursAt(s, q, i) {
          var i: nat :| OccursAt(s, q, i);
          assert i != 0;
          assert OccursAt(s[1..], q, i - 1);
        }
      }
      rest
  }

  /** Every text includes the empty query. */
  lemma {:induction false} IncludesEmpty(s: string)
    ensures Includes(s, "")
  {
    assert OccursAt(s, "", 0);
  }

  // ---- Loose equality with `false` ----

  predicate IsDigit(c: char) {
    '0' <= c <= '9'
  }

  predicate AllZeroDigits(t: string) {
    forall k :: 0 <= k < |t| ==> t[k] == '0'
  }

  /** `0x0`, `0o00`, `0B0`: a radix-prefixed numeral whose value is zero. */
  predicate IsRadixZero(t: string) {
    |t| >= 3 && t[0] == '0' && t[1] in "xXoObB" && AllZeroDigits(t[2..])
  }

  /** Index of the first `e` or `E`, or the length when there is none. */
  function ExponentStart(t: string): (k: nat)
    ensures k <= |t|
    ensures forall j :: 0 <= j < k ==> t[j] != 'e' && t[j] != 'E'
    ensures k < |t| ==> t[k] == 'e' || t[k] == 'E'
  {
    if t == [] || t[0] == 'e' || t[0] == 'E' then 0 else 1 + ExponentStart(t[1..])
  }

  /** A mantissa made of zero digits and at most one decimal point. */
  predicate IsZeroMantissa(m: string) {
    && (forall k :: 0 <= k < |m| ==> m[k] == '0' || m[k] == '.')
    && (exists k :: 0 <= k < |m| && m[k] == '0')
    && (forall i, j :: 0 <= i < j < |m| && m[i] == '.' ==> m[j] != '.')
  }

  predicate IsExponent(x: string) {
    x == [] ||
    (|x| >= 2 && (x[0] == 'e' || x[0] == 'E') &&
     var d := if x[1] == '+' || x[1] == '-' then x[2..] else x[1..];
     |d| > 0 && forall k :: 0 <= k < |d| ==> IsDigit(d[k]))
  }

  /** An unsigned decimal literal whose value is zero, like `0`, `00.0`,
      `.0` or `0e7`. */
  predicate IsDecimalZero(t: string) {
    var e := ExponentStart(t);
    IsZeroMantissa(t[..e]) && IsExponent(t[e..])
  }

  /** A trimmed string that `Number(...)` turns into +0 or -0. */
  predicate IsZeroLiteral(t: string) {
    IsRadixZero(t) || IsDecimalZero(t)
    || (|t| > 0 && (t[0] == '+' || t[0] == '-') && IsDecimalZero(t[1..]))
  }

  /** `Number(s) == 0`: white space only, or a zero literal once trimmed. */
  predicate StringIsZero(s: string) {
    var t := Trim(s);
    t == "" || IsZeroLiteral(t)
  }

  /** `p == false` with JavaScript's loose equality: `undefined` and `null`
      equal only each other, a boolean compares as itself, and a number or a
      string compares by its numeric value against 0. */
  predicate LooseEqualsFalse(p: Prop<Scalar>) {
    match p
    case Absent => false
    case Null => false
    case Has(Bool(b)) => !b
    case Has(Num(n)) => n == 0
    case Has(Text(s)) => StringIsZero(s)
  }

  /** A stored flag is kept by `== false` when it is false, 0 or empty,
      and dropped when it is missing, null or true. */
  lemma {:induction false} LooseEqualsFalseExamples()
    ensures LooseEqualsFalse(Has(Bool(false))) && !LooseEqualsFalse(Has(Bool(true)))
    ensures LooseEqualsFalse(Has(Num(0))) && !LooseEqualsFalse(Has(Num(1)))
    ensures LooseEqualsFalse(Has(Text("")))
    ensures !LooseEqualsFalse(Absent) && !LooseEqualsFalse(Null)
  {
  }

  /** A string compares by its numeric value: white space around a zero
      still equals false. */
  lemma {:induction false} LooseEqualsFalsePaddedZero()
    ensures LooseEqualsFalse(Has(Text(" 0 ")))
  {
    assert TrimStart(" 0 ") == "0 " by { assert " 0 "[1..] == "0 "; }
    assert TrimEnd("0 ") == "0" by { assert "0 "[..1] == "0"; }
    assert ExponentStart("0") == 1 by { assert "0"[1..] == ""; }
    assert "0"[..1] == "0" && "0"[1..] == "";
    assert IsZeroMantissa("0");
  }

  /** A nonzero numeral is not loosely false. */
  lemma {:induction false} LooseEqualsFalseOne()
    ensures !LooseEqualsFalse(Has(Text("1")))
  {
    assert Trim("1") == "1";
    assert ExponentStart("1") == 1 by { assert "1"[1..] == ""; }
    assert "1"[..1][0] == '1';
  }
}
