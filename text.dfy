/** Text operations the record filter is built from: JavaScript's
 *  `String.prototype.trim`, `toLowerCase` (restricted to ASCII letters),
 *  `includes`, and `Number.prototype.toString` on non-negative integers.
 */
module Text {

  /** The characters `trim()` removes: ECMAScript WhiteSpace and LineTerminator. */
  predicate IsSpace(c: char) {
    c == ' ' || c == '\t' || c == '\n' || c == '\r' || c == '\U{B}' || c == '\U{C}'
    || c == '\U{A0}' || c == '\U{1680}' || ('\U{2000}' <= c <= '\U{200A}')
    || c == '\U{2028}' || c == '\U{2029}' || c == '\U{202F}' || c == '\U{205F}'
    || c == '\U{3000}' || c == '\U{FEFF}'
  }

  predicate IsUpper(c: char) { 'A' <= c <= 'Z' }

  function LowerChar(c: char): (d: char)
    ensures !IsUpper(d)
    ensures IsUpper(c) ==> d as int == c as int + 32
    ensures !IsUpper(c) ==> d == c
  {
    if IsUpper(c) then (c as int + 32) as char else c
  }

  /** `toLowerCase()` on ASCII letters; every other character is kept. */
  function Lower(s: string): (r: string)
    ensures |r| == |s|
    ensures forall i :: 0 <= i < |s| ==> r[i] == LowerChar(s[i])
  {
    seq(|s|, i requires 0 <= i < |s| => LowerChar(s[i]))
  }

  lemma LowerIdempotent(s: string)
    ensures Lower(Lower(s)) == Lower(s)
  {
  }

  /** Lower-casing never creates or removes a space, so it commutes with trimming. */
  lemma LowerKeepsSpaces(s: string)
    ensures forall i :: 0 <= i < |s| ==> (IsSpace(Lower(s)[i]) <==> IsSpace(s[i]))
  {
  }

  /** `trimStart()`: drops the leading spaces, and nothing else. */
  function TrimStart(s: string): (r: string)
    ensures |r| <= |s| && r == s[|s| - |r|..]
    ensures forall k :: 0 <= k < |s| - |r| ==> IsSpace(s[k])
    ensures r != [] ==> !IsSpace(r[0])
    decreases |s|
  {
    if |s| > 0 && IsSpace(s[0]) then TrimStart(s[1..]) else s
  }

  /** `trimEnd()`: drops the trailing spaces, and nothing else. */
  function TrimEnd(s: string): (r: string)
    ensures |r| <= |s| && r == s[..|r|]
    ensures forall k :: |r| <= k < |s| ==> IsSpace(s[k])
    ensures r != [] ==> !IsSpace(r[|r| - 1])
    decreases |s|
  {
    if |s| > 0 && IsSpace(s[|s| - 1]) then TrimEnd(s[..|s| - 1]) else s
  }

  /** `r` is `s[i..j]` and everything cut off on either side is a space. */
  predicate CutAt(s: string, r: string, i: int, j: int) {
    && 0 <= i <= j <= |s| && r == s[i..j]
    && (forall k :: 0 <= k < i ==> IsSpace(s[k]))
    && (forall k :: j <= k < |s| ==> IsSpace(s[k]))
  }

  /** `trim()`: the result is a slice of the input that neither starts nor ends
   *  with a space, and everything cut off on either side is a space. */
  function Trim(s: string): (r: string)
    ensures exists i, j :: CutAt(s, r, i, j)
    ensures r != [] ==> !IsSpace(r[0]) && !IsSpace(r[|r| - 1])
  {
    var t := TrimStart(s);
    var r := TrimEnd(t);
    assert CutAt(s, r, |s| - |t|, |s| - |t| + |r|);
    r
  }

  lemma {:induction false} TrimStartOfTrimmed(s: string)
    requires s == [] || !IsSpace(s[0])
    ensures TrimStart(s) == s
  {
  }

  lemma {:induction false} TrimEndOfTrimmed(s: string)
    requires s == [] || !IsSpace(s[|s| - 1])
    ensures TrimEnd(s) == s
  {
  }

  /** The search-term normalisation of `handleSearched`: `trim()` then `toLowerCase()`. */
  function Normalize(query: string): (r: string)
    ensures forall i :: 0 <= i < |r| ==> !IsUpper(r[i])
    ensures r != [] ==> !IsSpace(r[0]) && !IsSpace(r[|r| - 1])
  {
    var t := Trim(query);
    LowerKeepsSpaces(t);
    Lower(t)
  }

  lemma NormalizeIdempotent(query: string)
    ensures Normalize(Normalize(query)) == Normalize(query)
  {
    var n := Normalize(query);
    TrimStartOfTrimmed(n);
    TrimEndOfTrimmed(n);
    assert Trim(n) == n;
    LowerIdempotent(Trim(query));
  }

  /** A query normalises to the empty term exactly when it is all spaces
   *  (the empty query included). */
  lemma NormalizeBlank(query: string)
    ensures Normalize(query) == "" <==> forall i :: 0 <= i < |query| ==> IsSpace(query[i])
  {
    var t := Trim(query);
    assert |Normalize(query)| == |t|;
    var i, j :| CutAt(query, t, i, j);
    if t == "" {
      assert i == j;
    } else {
      assert t[0] == query[i];
    }
  }

  /** `q` occurs in `hay` starting at position `k`. */
  predicate OccursAt(hay: string, q: string, k: nat) {
    k + |q| <= |hay| && hay[k..k + |q|] == q
  }

  /** `hay.includes(q)`: true iff `q` occurs somewhere in `hay`
   *  (so always true for the empty `q`). */
  function Contains(hay: string, q: string): (b: bool)
    ensures b <==> exists k: nat :: OccursAt(hay, q, k)
    decreases |hay|
  {
    if |q| > |hay| then
      assert forall k: nat :: !OccursAt(hay, q, k);
      false
    else if hay[..|q|] == q then
      assert OccursAt(hay, q, 0);
      true
    else
      var b := Contains(hay[1..], q);
      assert forall k: nat :: OccursAt(hay[1..], q, k) <==> OccursAt(hay, q, k + 1) by {
        forall k: nat ensures OccursAt(hay[1..], q, k) <==> OccursAt(hay, q, k + 1) {
          if k + |q| <= |hay[1..]| {
            assert hay[1..][k..k + |q|] == hay[k + 1..k + 1 + |q|];
          }
        }
      }
      assert !OccursAt(hay, q, 0);
      assert (exists k: nat :: OccursAt(hay, q, k)) ==> exists k: nat :: OccursAt(hay[1..], q, k) by {
        if exists k: nat :: OccursAt(hay, q, k) {
          var k: nat :| OccursAt(hay, q, k);
          assert k > 0;
          assert OccursAt(hay[1..], q, k - 1);
        }
      }
      b
  }

  predicate IsDigit(c: char) { '0' <= c <= '9' }

  function DigitChar(d: nat): (c: char)
    requires d < 10
    ensures IsDigit(c)
  {
    ('0' as int + d) as char
  }

  function DigitValue(c: char): (d: nat)
    requires IsDigit(c)
    ensures d < 10
  {
    c as int - '0' as int
  }

  /** `n.toString()` for a non-negative integer: its decimal digits, without leading zeros. */
  function Decimal(n: nat): (s: string)
    ensures |s| >= 1
    ensures forall i :: 0 <= i < |s| ==> IsDigit(s[i])
    ensures s[0] == '0' ==> n == 0
  {
    if n < 10 then [DigitChar(n)] else Decimal(n / 10) + [DigitChar(n % 10)]
  }

  /** Reads a string of decimal digits back as a number. */
  function ParseDecimal(s: string): nat
    requires forall i :: 0 <= i < |s| ==> IsDigit(s[i])
  {
    if s == [] then 0 else ParseDecimal(s[..|s| - 1]) * 10 + DigitValue(s[|s| - 1])
  }

  /** The decimal text of a number determines the number. */
  lemma {:induction false} DecimalRoundTrip(n: nat)
    ensures ParseDecimal(Decimal(n)) == n
  {
    var s := Decimal(n);
    if n >= 10 {
      DecimalRoundTrip(n / 10);
      assert s[..|s| - 1] == Decimal(n / 10);
    }
  }
}
