/**
 * The JavaScript array operations the client relies on (`filter`, spread
 * append) and the relations used to state what they promise.
 */
module Lists {

  /** `r` can be obtained from `s` by deleting elements: an order-preserving selection. */
  predicate IsSubsequence<T(==)>(r: seq<T>, s: seq<T>)
    decreases |s|
  {
    if s == [] then r == []
    else (r != [] && r[0] == s[0] && IsSubsequence(r[1..], s[1..])) || IsSubsequence(r, s[1..])
  }

  /** No value occurs twice. */
  predicate NoDuplicates<T(==)>(s: seq<T>) {
    forall i, j | 0 <= i < j < |s| :: s[i] != s[j]
  }

  /**
   * `xs.filter(y => y !== x)`: the order-preserving selection of `xs` that
   * keeps every occurrence of every other value and no occurrence of `x`.
   */
  function RemoveAll<T(==)>(xs: seq<T>, x: T): (r: seq<T>)
    ensures IsSubsequence(r, xs)
    ensures multiset(r) == multiset(xs)[x := 0]
  {
    if xs == [] then []
    else
      assert xs == [xs[0]] + xs[1..];
      if xs[0] == x then RemoveAll(xs[1..], x)
      else [xs[0]] + RemoveAll(xs[1..], x)
  }

  /** Removing the value just appended to a list that lacked it gives the list back. */
  lemma {:induction false} RemoveAllAppended<T>(xs: seq<T>, x: T)
    requires x !in xs
    ensures RemoveAll(xs + [x], x) == xs
  {
    if xs == [] {
      assert [x][1..] == [];
    } else {
      assert (xs + [x])[1..] == xs[1..] + [x];
      RemoveAllAppended(xs[1..], x);
    }
  }

  /** Every element of a subsequence is an element of the sequence. */
  lemma {:induction false} SubsequenceMembers<T>(r: seq<T>, s: seq<T>, y: T)
    requires IsSubsequence(r, s) && y in r
    ensures y in s
    decreases |s|
  {
    if r[0] == s[0] && IsSubsequence(r[1..], s[1..]) {
      if y != r[0] {
        SubsequenceMembers(r[1..], s[1..], y);
      }
    } else {
      SubsequenceMembers(r, s[1..], y);
    }
  }

  /** A subsequence of a duplicate-free sequence is duplicate-free. */
  lemma {:induction false} SubsequenceNoDuplicates<T>(r: seq<T>, s: seq<T>)
    requires IsSubsequence(r, s) && NoDuplicates(s)
    ensures NoDuplicates(r)
    decreases |s|
  {
    if s != [] {
      assert NoDuplicates(s[1..]) by {
        forall i, j | 0 <= i < j < |s[1..]| ensures s[1..][i] != s[1..][j] {
          assert s[1..][i] == s[i + 1] && s[1..][j] == s[j + 1];
        }
      }
      if r != [] && r[0] == s[0] && IsSubsequence(r[1..], s[1..]) {
        SubsequenceNoDuplicates(r[1..], s[1..]);
        forall j | 0 < j < |r| ensures r[0] != r[j] {
          assert r[j] == r[1..][j - 1];
          SubsequenceMembers(r[1..], s[1..], r[j]);
          var k :| 0 <= k < |s[1..]| && s[1..][k] == r[j];
          assert s[k + 1] == r[j];
        }
        forall i, j | 0 <= i < j < |r| ensures r[i] != r[j] {
          if i > 0 {
            assert r[i] == r[1..][i - 1] && r[j] == r[1..][j - 1];
          }
        }
      } else {
        SubsequenceNoDuplicates(r, s[1..]);
      }
    }
  }
}
