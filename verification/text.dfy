/** String helpers the task list relies on: ECMAScript `String.prototype.trim`,
    `toLowerCase` (ASCII letters only) and `String.prototype.includes`. */
module Text {

  /** The code points `trim` removes: ECMAScript WhiteSpace plus LineTerminator. */
  predicate IsSpace(c: char) {
    || c == '\t' || c == '\n' || c == '\U{B}' || c == '\U{C}' || c == '\r' || c == ' '
    || c == '\U{A0}' || c == '\U{1680}' || ('\U{2000}' <= c <= '\U{200A}')
    || c == '\U{2028}' || c == '\U{2029}' || c == '\U{202F}' || c == '\U{205F}'
    || c == '\U{3000}' || c == '\U{FEFF}'
  }

  /** Every character of `s` is white space (vacuously true of the empty string). */
  predicate IsBlank(s: string) {
    forall i :: 0 <= i < |s| ==> IsSpace(s[i])
  }

  /** The first index at or after `i` that does not hold white space (or
      `|s|`): where the trimmed text starts. */
  function StartFrom(s: string, i: nat): (a: nat)
    requires i <= |s|
    ensures i <= a <= |s|
    ensures forall k :: i <= k < a ==> IsSpace(s[k])
    ensures a < |s| ==> !IsSpace(s[a])
    decreases |s| - i
  {
    if i < |s| && IsSpace(s[i]) then StartFrom(s, i + 1) else i
  }

  /** The end of the last run of white space reaching up to `j`, going no
      further back than `lo`: where the trimmed text ends. */
  function EndFrom(s: string, lo: nat, j: nat): (b: nat)
    requires lo <= j <= |s|
    ensures lo <= b <= j
    ensures forall k :: b <= k < j ==> IsSpace(s[k])
    ensures b > lo ==> !IsSpace(s[b - 1])
    decreases j
  {
    if j > lo && IsSpace(s[j - 1]) then EndFrom(s, lo, j - 1) else j
  }

  /** `r` is what is left of `s` after cutting the blank prefix `s[..a]` and
      a blank suffix. */
  predicate TrimmedAt(s: string, r: string, a: int) {
    && 0 <= a <= |s| - |r| && r == s[a..a + |r|]
    && (forall i :: 0 <= i < a ==> IsSpace(s[i]))
    && (forall i :: a + |r| <= i < |s| ==> IsSpace(s[i]))
  }

  /** `s.trim()`: the infix of `s` left after removing the white space on both
      sides; it is empty exactly when `s` is blank. */
  function Trim(s: string): (r: string)
    ensures exists a :: TrimmedAt(s, r, a)
    ensures r != [] ==> !IsSpace(r[0]) && !IsSpace(r[|r| - 1])
    ensures r == [] <==> IsBlank(s)
  {
    var a := StartFrom(s, 0);
    var b := EndFrom(s, a, |s|);
    assert TrimmedAt(s, s[a..b], a);
    assert a == b ==> IsBlank(s);
    s[a..b]
  }

  /** Trimming is idempotent, and a string is its own trim exactly when it has
      no white space at either end. */
  lemma TrimFixpoint(s: string)
    ensures Trim(s) == s <==> (s == [] || (!IsSpace(s[0]) && !IsSpace(s[|s| - 1])))
    ensures Trim(Trim(s)) == Trim(s)
  {
    if s != [] && !IsSpace(s[0]) && !IsSpace(s[|s| - 1]) {
      assert StartFrom(s, 0) == 0;
      assert EndFrom(s, 0, |s|) == |s|;
      assert s[0..|s|] == s;
    }
    var r := Trim(s);
    if r != [] {
      assert StartFrom(r, 0) == 0;
      assert EndFrom(r, 0, |r|) == |r|;
      assert r[0..|r|] == r;
    }
  }

  predicate IsUpper(c: char) {
    'A' <= c <= 'Z'
  }

  /** ASCII lower-casing of one character. */
  function LowerChar(c: char): (d: char)
    ensures !IsUpper(d)
    ensures IsUpper(c) ==> d as int == c as int + 32
    ensures !IsUpper(c) ==> d == c
  {
    if IsUpper(c) then (c as int + 32) as char else c
  }

  /** `s.toLowerCase()` restricted to ASCII letters: same length, no capital
      letter left, every other character kept. */
  function Lower(s: string): (r: string)
    ensures |r| == |s|
    ensures forall i :: 0 <= i < |r| ==> !IsUpper(r[i])
    ensures forall i :: 0 <= i < |s| && !IsUpper(s[i]) ==> r[i] == s[i]
    ensures forall i :: 0 <= i < |s| && IsUpper(s[i]) ==> r[i] as int == s[i] as int + 32
  {
    seq(|s|, i requires 0 <= i < |s| => LowerChar(s[i]))
  }

  /** Lower-casing twice is lower-casing once. */
  lemma LowerIdempotent(s: string)
    ensures Lower(Lower(s)) == Lower(s)
  {
  }

  /** `q` occurs in `s` starting at position `i`. */
  predicate OccursAt(s: string, q: string, i: int) {
    0 <= i <= |s| - |q| && s[i..i + |q|] == q
  }

  /** `s.includes(q)`: `q` occurs somewhere in `s` as a contiguous infix. */
  function Includes(s: string, q: string): (b: bool)
    ensures b <==> exists i :: OccursAt(s, q, i)
    decreases |s|
  {
    if |q| > |s| then false
    else if s[..|q|] == q then assert OccursAt(s, q, 0); true
    else
      var b := Includes(s[1..], q);
      assert b ==> exists i :: OccursAt(s, q, i) by {
        if b {
          var j :| OccursAt(s[1..], q, j);
          assert s[j + 1..j + 1 + |q|] == s[1..][j..j + |q|];
          assert OccursAt(s, q, j + 1);
        }
      }
      assert (exists i :: OccursAt(s, q, i)) ==> b by {
        if i :| OccursAt(s, q, i) {
          assert i != 0;
          assert s[1..][i - 1..i - 1 + |q|] == s[i..i + |q|];
          assert OccursAt(s[1..], q, i - 1);
        }
      }
      b
  }

  /** The empty query is contained in every string. */
  lemma IncludesEmpty(s: string)
    ensures Includes(s, [])
  {
    assert OccursAt(s, [], 0);
  }
}
