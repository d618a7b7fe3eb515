/**
 * The JavaScript string built-ins the client relies on: `trim`,
 * `toLowerCase` and `includes`, written out over `string` (= seq<char>).
 */
module Text {

  /** The code points JavaScript's `trim` removes (WhiteSpace and LineTerminator). */
  predicate IsSpace(c: char) {
    var n := c as int;
    n == 0x09 || n == 0x0A || n == 0x0B || n == 0x0C || n == 0x0D || n == 0x20 ||
    n == 0xA0 || n == 0x1680 || (0x2000 <= n <= 0x200A) || n == 0x2028 ||
    n == 0x2029 || n == 0x202F || n == 0x205F || n == 0x3000 || n == 0xFEFF
  }

  /** Every character of `s` is white space (true of the empty string). */
  predicate AllSpace(s: string) {
    forall i | 0 <= i < |s| :: IsSpace(s[i])
  }

  /** How many white-space characters `s` starts with. */
  function LeadingSpaces(s: string): (n: nat)
    ensures n <= |s|
    ensures forall i | 0 <= i < n :: IsSpace(s[i])
    ensures n < |s| ==> !IsSpace(s[n])
    decreases |s|
  {
    if s != [] && IsSpace(s[0]) then 1 + LeadingSpaces(s[1..]) else 0
  }

  /** How many white-space characters `s` ends with. */
  function TrailingSpaces(s: string): (n: nat)
    ensures n <= |s|
    ensures forall i | |s| - n <= i < |s| :: IsSpace(s[i])
    ensures n < |s| ==> !IsSpace(s[|s| - 1 - n])
    decreases |s|
  {
    if s != [] && IsSpace(s[|s| - 1]) then 1 + TrailingSpaces(s[..|s| - 1]) else 0
  }

  /**
   * JavaScript's `s.trim()`: the infix of `s` left after removing the white
   * space at both ends. It is empty exactly when `s` is all white space, and
   * otherwise it starts and ends with a non-space character.
   */
  function Trim(s: string): (r: string)
    ensures |r| <= |s|
    ensures r == "" <==> AllSpace(s)
    ensures r != "" ==> !IsSpace(r[0]) && !IsSpace(r[|r| - 1])
    ensures var k := LeadingSpaces(s);
      && k + |r| <= |s|
      && r == s[k..k + |r|]
      && (forall i | 0 <= i < k :: IsSpace(s[i]))
      && (forall i | k + |r| <= i < |s| :: IsSpace(s[i]))
  {
    var k := LeadingSpaces(s);
    if k == |s| then "" else s[k..|s| - TrailingSpaces(s)]
  }

  /** A string is trimmed when `trim` leaves it as it is. */
  predicate IsTrimmed(s: string) {
    s == [] || (!IsSpace(s[0]) && !IsSpace(s[|s| - 1]))
  }

  lemma TrimIsTrimmed(s: string)
    ensures IsTrimmed(Trim(s))
  {
  }

  /** Trimming is idempotent: a trimmed string is its own trim. */
  lemma TrimOfTrimmed(s: string)
    requires IsTrimmed(s)
    ensures Trim(s) == s
  {
  }

  lemma TrimIdempotent(s: string)
    ensures Trim(Trim(s)) == Trim(s)
  {
    TrimOfTrimmed(Trim(s));
  }

  /** JavaScript's `toLowerCase` on one character, restricted to ASCII letters. */
  function LowerChar(c: char): char {
    if 'A' <= c <= 'Z' then (c as int + 32) as char else c
  }

  /**
   * `a` and `b` are the same character up to ASCII letter case: equal, or a
   * lower-case letter and the upper-case letter 32 code points below it.
   */
  predicate SameIgnoringCase(a: char, b: char) {
    || a == b
    || ('a' <= a <= 'z' && b as int == a as int - 32)
    || ('a' <= b <= 'z' && a as int == b as int - 32)
  }

  /** `s` and `t` spell the same text up to ASCII letter case. */
  predicate EqualIgnoringCase(s: string, t: string) {
    |s| == |t| && forall i | 0 <= i < |s| :: SameIgnoringCase(s[i], t[i])
  }

  /**
   * `s.toLowerCase()` over ASCII: a string of the same length, equal to `s`
   * up to letter case, with no upper-case letter left, where every character
   * that was not an upper-case letter stays as it was.
   */
  function Lower(s: string): (r: string)
    ensures |r| == |s|
    ensures EqualIgnoringCase(s, r)
    ensures forall i | 0 <= i < |r| :: !('A' <= r[i] <= 'Z')
    ensures forall i | 0 <= i < |s| :: !('A' <= s[i] <= 'Z') ==> r[i] == s[i]
  {
    seq(|s|, k requires 0 <= k < |s| => LowerChar(s[k]))
  }

  /** Lowering a lower-cased string changes nothing. */
  lemma LowerIdempotent(s: string)
    ensures Lower(Lower(s)) == Lower(s)
  {
  }

  /** Strings that differ only in letter case lower to the same string. */
  lemma LowerIgnoresCase(s: string, t: string)
    requires EqualIgnoringCase(s, t)
    ensures Lower(s) == Lower(t)
  {
  }

  /** Strings with white space at the same positions start and end with equally many spaces. */
  lemma SpaceRunsAgree(s: string, t: string)
    requires |s| == |t| && forall i | 0 <= i < |s| :: IsSpace(s[i]) == IsSpace(t[i])
    ensures LeadingSpaces(s) == LeadingSpaces(t)
    ensures TrailingSpaces(s) == TrailingSpaces(t)
  {
  }

  /** Letter case does not decide white space: equal-up-to-case strings trim alike. */
  lemma TrimIgnoresCase(s: string, t: string)
    requires EqualIgnoringCase(s, t)
    ensures EqualIgnoringCase(Trim(s), Trim(t))
  {
    forall i | 0 <= i < |s| ensures IsSpace(s[i]) == IsSpace(t[i]) {
      assert SameIgnoringCase(s[i], t[i]);
    }
    SpaceRunsAgree(s, t);
    TrimSlice(s);
    TrimSlice(t);
    var k := LeadingSpaces(s);
    if k < |s| {
      SlicesIgnoreCase(s, t, k, k + |Trim(s)|);
    }
  }

  /** Where `trim` cuts: after the leading spaces and before the trailing ones. */
  lemma TrimSlice(s: string)
    ensures LeadingSpaces(s) < |s| ==> |Trim(s)| == |s| - LeadingSpaces(s) - TrailingSpaces(s)
  {
  }

  /** The same slice of equal-up-to-case strings is equal up to case. */
  lemma SlicesIgnoreCase(s: string, t: string, i: nat, j: nat)
    requires EqualIgnoringCase(s, t) && i <= j <= |s|
    ensures EqualIgnoringCase(s[i..j], t[i..j])
  {
    forall k | 0 <= k < j - i ensures SameIgnoringCase(s[i..j][k], t[i..j][k]) {
      assert s[i..j][k] == s[i + k] && t[i..j][k] == t[i + k];
    }
  }

  /** Lowering commutes with taking a slice. */
  lemma LowerSlice(s: string, i: nat, j: nat)
    requires i <= j <= |s|
    ensures Lower(s[i..j]) == Lower(s)[i..j]
  {
    var a, b := Lower(s[i..j]), Lower(s);
    forall k | 0 <= k < j - i ensures a[k] == b[i + k] {
      assert s[i..j][k] == s[i + k];
    }
    assert a == b[i..j];
  }

  /** `s` starts with `p`. */
  predicate StartsWith(s: string, p: string) {
    |p| <= |s| && s[..|p|] == p
  }

  /** `p` occurs in `s` at position `i`. */
  predicate OccursAt(s: string, p: string, i: nat) {
    i + |p| <= |s| && s[i..i + |p|] == p
  }

  /** JavaScript's `s.includes(p)`: try each starting position in turn. */
  predicate Includes(s: string, p: string)
    decreases |s|
  {
    StartsWith(s, p) || (s != [] && Includes(s[1..], p))
  }

  /** `includes` agrees with the positional definition of a substring. */
  lemma {:induction false} IncludesIffOccurs(s: string, p: string)
    ensures Includes(s, p) <==> exists i: nat :: OccursAt(s, p, i)
    decreases |s|
  {
    if Includes(s, p) {
      if StartsWith(s, p) {
        assert OccursAt(s, p, 0);
      } else {
        IncludesIffOccurs(s[1..], p);
        var i: nat :| OccursAt(s[1..], p, i);
        assert s[1..][i..i + |p|] == s[i + 1..i + 1 + |p|];
        assert OccursAt(s, p, i + 1);
      }
    }
    if exists i: nat :: OccursAt(s, p, i) {
      var i: nat :| OccursAt(s, p, i);
      if i > 0 {
        assert s[1..][i - 1..i - 1 + |p|] == s[i..i + |p|];
        assert OccursAt(s[1..], p, i - 1);
        IncludesIffOccurs(s[1..], p);
      } else {
        assert StartsWith(s, p);
      }
    }
  }

  /** A position where an included string occurs. */
  lemma IncludesWitness(s: string, p: string) returns (i: nat)
    requires Includes(s, p)
    ensures OccursAt(s, p, i)
  {
    IncludesIffOccurs(s, p);
    i :| OccursAt(s, p, i);
  }

  lemma IncludesAt(s: string, p: string, i: nat)
    requires OccursAt(s, p, i)
    ensures Includes(s, p)
  {
    IncludesIffOccurs(s, p);
  }

  /** A string includes its own suffixes. */
  lemma IncludesSuffix(a: string, b: string)
    ensures Includes(a + b, b)
  {
    assert (a + b)[|a|..|a| + |b|] == b;
    IncludesAt(a + b, b, |a|);
  }

  /** `includes` is transitive. */
  lemma IncludesTransitive(a: string, b: string, c: string)
    requires Includes(a, b) && Includes(b, c)
    ensures Includes(a, c)
  {
    var i := IncludesWitness(a, b);
    var j := IncludesWitness(b, c);
    forall k | 0 <= k < |c| ensures a[i + j + k] == c[k] {
      assert a[i..i + |b|][j + k] == b[j + k];
      assert b[j..j + |c|][k] == c[k];
    }
    assert a[i + j..i + j + |c|] == c;
    IncludesAt(a, c, i + j);
  }

  /** Lower-casing both sides preserves an inclusion. */
  lemma IncludesLower(s: string, p: string)
    requires Includes(s, p)
    ensures Includes(Lower(s), Lower(p))
  {
    var i := IncludesWitness(s, p);
    var ls := Lower(s);
    assert s[i..i + |p|] == p;
    LowerSlice(s, i, i + |p|);
    assert ls[i..i + |p|] == Lower(p);
    IncludesAt(ls, Lower(p), i);
  }

  /** A string includes its trimmed form. */
  lemma IncludesTrim(s: string)
    ensures Includes(s, Trim(s))
  {
    IncludesAt(s, Trim(s), LeadingSpaces(s));
  }
}
