/**
 Character and string primitives the two components rely on: the ECMAScript
 whitespace class (shared by the regular-expression escape `\s` and by
 `String.prototype.trim`), ASCII lower-casing, substring search
 (`String.prototype.includes`), `trim`, and decimal rendering of naturals.
 */
module Text {

  /** The ECMAScript WhiteSpace and LineTerminator code points: exactly the set
      matched by `\s` and removed by `trim()`. */
  predicate IsSpace(c: char) {
    || c == '\t' || c == '\n' || c == '\U{000B}' || c == '\U{000C}' || c == '\r'
    || c == ' ' || c == '\U{00A0}' || c == '\U{1680}'
    || ('\U{2000}' <= c <= '\U{200A}')
    || c == '\U{2028}' || c == '\U{2029}' || c == '\U{202F}' || c == '\U{205F}'
    || c == '\U{3000}' || c == '\U{FEFF}'
  }

  /** Every character of `s[i..j]` is whitespace. */
  predicate AllSpace(s: string, i: nat, j: nat)
    requires i <= j <= |s|
  {
    forall k :: i <= k < j ==> IsSpace(s[k])
  }

  /** No character of `s[i..j]` is whitespace. */
  predicate NoSpace(s: string, i: nat, j: nat)
    requires i <= j <= |s|
  {
    forall k :: i <= k < j ==> !IsSpace(s[k])
  }

  predicate IsBlank(s: string) {
    AllSpace(s, 0, |s|)
  }

  // ---------------------------------------------------------------------------
  // Lower-casing

  function LowerChar(c: char): char {
    if 'A' <= c <= 'Z' then (c as int + 32) as char else c
  }

  function Lower(s: string): (r: string)
    ensures |r| == |s|
    ensures forall k :: 0 <= k < |s| ==> r[k] == LowerChar(s[k])
  {
    seq(|s|, k requires 0 <= k < |s| => LowerChar(s[k]))
  }

  /** Lower-casing never turns a letter into whitespace or back. */
  lemma LowerCharKeepsSpace(c: char)
    ensures IsSpace(LowerChar(c)) == IsSpace(c)
  {
  }

  lemma LowerIdempotent(s: string)
    ensures Lower(Lower(s)) == Lower(s)
  {
  }

  lemma LowerSlice(s: string, i: nat, j: nat)
    requires i <= j <= |s|
    ensures Lower(s)[i..j] == Lower(s[i..j])
  {
  }

  // ---------------------------------------------------------------------------
  // Maximal runs

  /** The end of the maximal run, starting at `i`, of characters whose
      whiteness is `space`. */
  function RunEnd(s: string, i: nat, space: bool): (j: nat)
    requires i <= |s|
    ensures i <= j <= |s|
    ensures forall k :: i <= k < j ==> IsSpace(s[k]) == space
    ensures j == |s| || IsSpace(s[j]) != space
    decreases |s| - i
  {
    if i == |s| || IsSpace(s[i]) != space then i else RunEnd(s, i + 1, space)
  }

  /** The start of the maximal run of whitespace that ends at `j`, not going
      below `lo`. */
  function SpaceRunStart(s: string, lo: nat, j: nat): (i: nat)
    requires lo <= j <= |s|
    ensures lo <= i <= j
    ensures AllSpace(s, i, j)
    ensures i == lo || !IsSpace(s[i - 1])
    decreases j - lo
  {
    if j == lo || !IsSpace(s[j - 1]) then j else SpaceRunStart(s, lo, j - 1)
  }

  /** A run end depends only on the whiteness of the characters, so
      lower-casing the text leaves every run boundary where it was. */
  lemma {:induction false} RunEndIgnoresCase(s: string, i: nat, space: bool)
    requires i <= |s|
    ensures RunEnd(Lower(s), i, space) == RunEnd(s, i, space)
    decreases |s| - i
  {
    if i < |s| {
      LowerCharKeepsSpace(s[i]);
      if IsSpace(s[i]) == space {
        RunEndIgnoresCase(s, i + 1, space);
      }
    }
  }

  // ---------------------------------------------------------------------------
  // trim()

  /** `String.prototype.trim`: drop the leading and the trailing whitespace. */
  function Trim(s: string): (r: string)
    ensures exists a, b :: 0 <= a <= b <= |s| && AllSpace(s, 0, a) && AllSpace(s, b, |s|) && r == s[a..b]
    ensures |r| == 0 <==> IsBlank(s)
    ensures |r| > 0 ==> !IsSpace(r[0]) && !IsSpace(r[|r| - 1])
  {
    var a := RunEnd(s, 0, true);
    var b := SpaceRunStart(s, a, |s|);
    assert AllSpace(s, b, |s|);
    if a == |s| then
      assert IsBlank(s);
      s[a..b]
    else
      assert !IsSpace(s[a]);
      assert b > a;
      s[a..b]
  }

  /** Trimming an already trimmed string changes nothing. */
  lemma TrimIdempotent(s: string)
    ensures Trim(Trim(s)) == Trim(s)
  {
    var t := Trim(s);
    if |t| == 0 {
      assert Trim(t) == [];
    } else {
      assert RunEnd(t, 0, true) == 0;
      assert SpaceRunStart(t, 0, |t|) == |t|;
      assert t[0..|t|] == t;
    }
  }

  // ---------------------------------------------------------------------------
  // includes()

  predicate OccursAt(s: string, w: string, k: nat) {
    k + |w| <= |s| && s[k..k + |w|] == w
  }

  /** Reference meaning of `s.includes(w)`: `w` occurs somewhere in `s`. */
  ghost predicate Substring(w: string, s: string) {
    exists k: nat :: OccursAt(s, w, k)
  }

  /** A word cannot occur where its first letter does not. */
  lemma NoFirstLetterNoOccurrence(s: string, w: string)
    requires |w| > 0 && forall k :: 0 <= k < |s| ==> s[k] != w[0]
    ensures !Substring(w, s)
  {
    forall k: nat | k + |w| <= |s|
      ensures !OccursAt(s, w, k)
    {
      assert s[k..k + |w|][0] == s[k];
    }
  }

  /** Left-to-right search for `w` in `s` from position `i` on. */
  function IncludesFrom(s: string, w: string, i: nat): (r: bool)
    ensures r <==> exists k: nat :: i <= k && OccursAt(s, w, k)
    decreases |s| - i
  {
    if i + |w| > |s| then
      assert forall k: nat :: i <= k ==> !OccursAt(s, w, k);
      false
    else if s[i..i + |w|] == w then
      assert OccursAt(s, w, i);
      true
    else
      assert forall k: nat :: i <= k && OccursAt(s, w, k) ==> i + 1 <= k;
      IncludesFrom(s, w, i + 1)
  }

  function Includes(s: string, w: string): (r: bool)
    ensures r <==> Substring(w, s)
  {
    IncludesFrom(s, w, 0)
  }

  // ---------------------------------------------------------------------------
  // Decimal rendering, as `String(n)` / template interpolation does it

  function DigitChar(d: nat): char
    requires d < 10
  {
    ('0' as int + d) as char
  }

  function DigitValue(c: char): int {
    c as int - '0' as int
  }

  function Decimal(n: nat): (r: string)
    ensures |r| > 0
    ensures forall k :: 0 <= k < |r| ==> '0' <= r[k] <= '9'
    decreases n
  {
    if n < 10 then [DigitChar(n)] else Decimal(n / 10) + [DigitChar(n % 10)]
  }

  /** Reads back a string of decimal digits. */
  function ParseDecimal(s: string): int
    decreases |s|
  {
    if |s| == 0 then 0 else ParseDecimal(s[..|s| - 1]) * 10 + DigitValue(s[|s| - 1])
  }

  /** Reading back a rendered natural yields that natural. */
  lemma {:induction false} DecimalRoundTrip(n: nat)
    ensures ParseDecimal(Decimal(n)) == n
    decreases n
  {
    if n >= 10 {
      DecimalRoundTrip(n / 10);
      var d := Decimal(n);
      assert d[..|d| - 1] == Decimal(n / 10);
    } else {
      assert Decimal(n)[..0] == [];
    }
  }

  /** Distinct naturals render to distinct strings. */
  lemma DecimalInjective(m: nat, n: nat)
    requires Decimal(m) == Decimal(n)
    ensures m == n
  {
    DecimalRoundTrip(m);
    DecimalRoundTrip(n);
  }
}
