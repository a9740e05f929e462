/**
 * Sequence facts shared by every stage of the pipeline: swapping two
 * positions, moving values through a bijection of positions, and mapping a
 * function over a sequence.
 */
module Permutations {

  /** `s` with the values at positions `i` and `j` exchanged. */
  function Swap<T>(s: seq<T>, i: nat, j: nat): (r: seq<T>)
    requires i < |s| && j < |s|
    ensures |r| == |s|
    ensures r[i] == s[j] && r[j] == s[i]
    ensures forall m :: 0 <= m < |s| && m != i && m != j ==> r[m] == s[m]
  {
    s[i := s[j]][j := s[i]]
  }

  /** One swap keeps the multiset of values. */
  lemma SwapIsPermutation<T>(s: seq<T>, i: nat, j: nat)
    requires i < |s| && j < |s|
    ensures multiset(Swap(s, i, j)) == multiset(s)
  {
  }

  /** All values of `s` are pairwise different. */
  ghost predicate Distinct<T>(s: seq<T>) {
    forall i, j :: 0 <= i < j < |s| ==> s[i] != s[j]
  }

  /** The values of `s` are those of `t`, moved by the injective map `f` of positions. */
  ghost predicate MovedBy<T>(s: seq<T>, t: seq<T>, f: int -> int) {
    && |s| == |t|
    && (forall i :: 0 <= i < |s| ==> 0 <= f(i) < |t| && t[f(i)] == s[i])
    && (forall i, j :: 0 <= i < j < |s| ==> f(i) != f(j))
  }

  /**
   * Taking the last value of `s` out of `t`, at the position `f` sends it to,
   * leaves the rest of `s` moved into the rest of `t`.
   */
  lemma DropLast<T>(s: seq<T>, t: seq<T>, f: int -> int) returns (t': seq<T>, g: int -> int)
    requires MovedBy(s, t, f) && |s| > 0
    ensures MovedBy(s[..|s| - 1], t', g)
    ensures multiset(t) == multiset(t') + multiset{s[|s| - 1]}
  {
    var n := |s| - 1;
    var k := f(n);
    t' := t[..k] + t[k + 1..];
    g := (i: int) => if f(i) < k then f(i) else f(i) - 1;
    forall i | 0 <= i < n
      ensures 0 <= g(i) < |t'| && t'[g(i)] == s[..n][i]
    {
      assert f(i) != k;
    }
    forall i, j | 0 <= i < j < n
      ensures g(i) != g(j)
    {
      assert f(i) != f(j) && f(i) != k && f(j) != k;
    }
    assert t == t[..k] + [t[k]] + t[k + 1..];
  }

  /**
   * A sequence whose positions are sent injectively into an equally long
   * sequence holding the same values there is a permutation of it.
   */
  lemma {:induction false} MovedByIsPermutation<T>(s: seq<T>, t: seq<T>, f: int -> int)
    requires MovedBy(s, t, f)
    ensures multiset(s) == multiset(t)
    decreases |s|
  {
    if |s| > 0 {
      var n := |s| - 1;
      var t', g := DropLast(s, t, f);
      MovedByIsPermutation(s[..n], t', g);
      assert s == s[..n] + [s[n]];
    }
  }

  /** `f` applied to every value of `s`. */
  function Map<T, U>(f: T -> U, s: seq<T>): (r: seq<U>)
    ensures |r| == |s|
    ensures forall i :: 0 <= i < |s| ==> r[i] == f(s[i])
  {
    seq(|s|, i requires 0 <= i < |s| => f(s[i]))
  }

  lemma MapConcat<T, U>(f: T -> U, a: seq<T>, b: seq<T>)
    ensures Map(f, a + b) == Map(f, a) + Map(f, b)
  {
  }

  lemma MapSlice<T, U>(f: T -> U, s: seq<T>, i: nat, j: nat)
    requires i <= j <= |s|
    ensures Map(f, s)[i..j] == Map(f, s[i..j])
  {
  }

  /** The positions `0 .. n-1` in order: labels that record where each value came from. */
  function Iota(n: nat): (r: seq<nat>)
    ensures |r| == n
    ensures forall i :: 0 <= i < n ==> r[i] == i
  {
    seq(n, i requires 0 <= i < n => i)
  }
}
