/**
 * The Fisher-Yates shuffle of both implementations, with its random draws
 * supplied by the caller.  The loop `while (n > 1) { k = Next(n--); swap(n, k) }`
 * performs one draw for each n from the length down to 2; draw number j picks
 * `k` in `[0, len - j)` and exchanges it with position `len - 1 - j`.
 */
module FisherYates {
  import opened Permutations

  /** How many draws a shuffle of `n` values makes. */
  function DrawCount(n: nat): nat {
    if n <= 1 then 0 else n - 1
  }

  /** `ks` is a possible sequence of draws for a shuffle of `n` values. */
  predicate ValidDraws(ks: seq<nat>, n: nat) {
    && |ks| == DrawCount(n)
    && forall j :: 0 <= j < |ks| ==> ks[j] < n - j
  }

  /**
   * The loop run on `s` while its counter starts at `n`: positions `n-1`
   * down to `1` are each swapped with the next draw.
   */
  function ShufflePrefix<T>(s: seq<T>, ks: seq<nat>, n: nat): (r: seq<T>)
    requires n <= |s| && ValidDraws(ks, n)
    ensures |r| == |s|
    decreases n
  {
    if n <= 1 then s
    else ShufflePrefix(Swap(s, n - 1, ks[0]), ks[1..], n - 1)
  }

  /**
   * One turn of the loop: with the draws from `j` on still to use and the
   * counter at `n`, swapping `n - 1` with draw `j` leaves the draws from
   * `j + 1` on for the counter at `n - 1`.
   */
  lemma ShuffleStep<T>(s: seq<T>, ks: seq<nat>, j: nat, n: nat)
    requires 1 < n <= |s| && j <= |ks| && ValidDraws(ks[j..], n)
    ensures j < |ks| && ks[j] < n
    ensures ValidDraws(ks[j + 1..], n - 1)
    ensures ShufflePrefix(Swap(s, n - 1, ks[j]), ks[j + 1..], n - 1) == ShufflePrefix(s, ks[j..], n)
  {
    assert ks[j..][0] == ks[j];
    assert ks[j..][1..] == ks[j + 1..];
  }

  /** The whole shuffle of `s` with draws `ks`. */
  function Shuffled<T>(s: seq<T>, ks: seq<nat>): (r: seq<T>)
    requires ValidDraws(ks, |s|)
    ensures |r| == |s|
  {
    ShufflePrefix(s, ks, |s|)
  }

  /** The shuffle only reorders the first `n` values and leaves the rest in place. */
  lemma {:induction false} ShufflePrefixFrame<T>(s: seq<T>, ks: seq<nat>, n: nat)
    requires n <= |s| && ValidDraws(ks, n)
    ensures ShufflePrefix(s, ks, n)[n..] == s[n..]
    ensures multiset(ShufflePrefix(s, ks, n)[..n]) == multiset(s[..n])
    decreases n
  {
    if n > 1 {
      var s' := Swap(s, n - 1, ks[0]);
      ShufflePrefixFrame(s', ks[1..], n - 1);
      SwapIsPermutation(s[..n], n - 1, ks[0]);
      assert Swap(s[..n], n - 1, ks[0]) == s'[..n];
      var r := ShufflePrefix(s, ks, n);
      assert r[..n] == r[..n - 1] + [r[n - 1]];
      assert s'[..n] == s'[..n - 1] + [s'[n - 1]];
    }
  }

  /** Every shuffle is a permutation of its input. */
  lemma ShuffledIsPermutation<T>(s: seq<T>, ks: seq<nat>)
    requires ValidDraws(ks, |s|)
    ensures multiset(Shuffled(s, ks)) == multiset(s)
  {
    ShufflePrefixFrame(s, ks, |s|);
    assert Shuffled(s, ks)[..|s|] == Shuffled(s, ks);
    assert s[..|s|] == s;
  }

  /** A sequence of length 0 or 1 is left as it is: the loop body never runs. */
  lemma ShuffledShortUnchanged<T>(s: seq<T>, ks: seq<nat>)
    requires |s| <= 1 && ValidDraws(ks, |s|)
    ensures Shuffled(s, ks) == s
  {
  }

  /** With nothing left to reorder, the two sequences already agree. */
  lemma SameWhenNothingLeft<T>(s: seq<T>, t: seq<T>, n: nat)
    requires n <= 1 && n <= |s| == |t|
    requires s[n..] == t[n..] && multiset(s[..n]) == multiset(t[..n])
    ensures s == t
  {
    if n == 1 {
      assert t[0] in multiset(s[..1]);
      assert s == s[..1] + s[1..] && t == t[..1] + t[1..];
    } else {
      assert s == s[0..] && t == t[0..];
    }
  }

  /** Two sequences whose first `n` values agree as multisets and end alike agree one position earlier. */
  lemma SameLastSamePrefix<T>(a: seq<T>, b: seq<T>, n: nat)
    requires 0 < n <= |a| && n <= |b| && a[n - 1] == b[n - 1]
    requires multiset(a[..n]) == multiset(b[..n])
    ensures multiset(a[..n - 1]) == multiset(b[..n - 1])
  {
    assert a[..n] == a[..n - 1] + [a[n - 1]];
    assert b[..n] == b[..n - 1] + [b[n - 1]];
    assert multiset(a[..n - 1]) == multiset(a[..n]) - multiset{a[n - 1]};
    assert multiset(b[..n - 1]) == multiset(b[..n]) - multiset{b[n - 1]};
  }

  /** Swapping the value `t` wants at position `n-1` into place leaves a smaller instance. */
  lemma SwapIntoPlace<T>(s: seq<T>, t: seq<T>, n: nat, k: nat)
    requires 1 < n <= |s| == |t| && k < n && s[k] == t[n - 1]
    requires s[n..] == t[n..] && multiset(s[..n]) == multiset(t[..n])
    ensures Swap(s, n - 1, k)[n - 1..] == t[n - 1..]
    ensures multiset(Swap(s, n - 1, k)[..n - 1]) == multiset(t[..n - 1])
  {
    var s' := Swap(s, n - 1, k);
    SwapIsPermutation(s[..n], n - 1, k);
    assert Swap(s[..n], n - 1, k) == s'[..n];
    SameLastSamePrefix(s', t, n);
    assert s'[n..] == s[n..];
    assert s'[n - 1..] == [t[n - 1]] + s'[n..];
    assert t[n - 1..] == [t[n - 1]] + t[n..];
  }

  /** Prepending draw `k` performs the swap of position `n-1` with `k` first. */
  lemma PrependDraw<T>(s: seq<T>, k: nat, ks: seq<nat>, n: nat)
    requires 1 < n <= |s| && k < n && ValidDraws(ks, n - 1)
    ensures ValidDraws([k] + ks, n)
    ensures ShufflePrefix(s, [k] + ks, n) == ShufflePrefix(Swap(s, n - 1, k), ks, n - 1)
  {
    assert ([k] + ks)[1..] == ks;
  }

  /** A value among the first `n` of `s` sits at some position below `n`. */
  lemma IndexIn<T>(s: seq<T>, x: T, n: nat) returns (k: nat)
    requires n <= |s| && x in multiset(s[..n])
    ensures k < n && s[k] == x
  {
    assert x in s[..n];
    var i :| 0 <= i < n && s[..n][i] == x;
    k := i;
  }

  /**
   * Every permutation of the input is the outcome of some choice of draws:
   * the shuffle can reach any order.
   */
  lemma {:induction false} ShufflePrefixReachesAll<T>(s: seq<T>, t: seq<T>, n: nat) returns (ks: seq<nat>)
    requires n <= |s| == |t|
    requires s[n..] == t[n..] && multiset(s[..n]) == multiset(t[..n])
    ensures ValidDraws(ks, n) && ShufflePrefix(s, ks, n) == t
    decreases n
  {
    if n <= 1 {
      SameWhenNothingLeft(s, t, n);
      ks := [];
    } else {
      assert t[n - 1] in multiset(t[..n]);
      var k := IndexIn(s, t[n - 1], n);
      SwapIntoPlace(s, t, n, k);
      var ks' := ShufflePrefixReachesAll(Swap(s, n - 1, k), t, n - 1);
      PrependDraw(s, k, ks', n);
      ks := [k] + ks';
    }
  }

  lemma ShuffledReachesEveryPermutation<T>(s: seq<T>, t: seq<T>)
    requires |s| == |t| && multiset(s) == multiset(t)
    ensures exists ks :: ValidDraws(ks, |s|) && Shuffled(s, ks) == t
  {
    assert s[..|s|] == s && t[..|t|] == t;
    assert s[|s|..] == [] == t[|t|..];
    var ks := ShufflePrefixReachesAll(s, t, |s|);
  }

  /** The shuffle moves values without looking at them, so it commutes with `Map`. */
  lemma {:induction false} ShufflePrefixMap<T, U>(f: T -> U, s: seq<T>, ks: seq<nat>, n: nat)
    requires n <= |s| && ValidDraws(ks, n)
    ensures ShufflePrefix(Map(f, s), ks, n) == Map(f, ShufflePrefix(s, ks, n))
    decreases n
  {
    if n > 1 {
      assert Swap(Map(f, s), n - 1, ks[0]) == Map(f, Swap(s, n - 1, ks[0]));
      ShufflePrefixMap(f, Swap(s, n - 1, ks[0]), ks[1..], n - 1);
    }
  }

  /** Shuffling keeps pairwise different values pairwise different. */
  lemma {:induction false} ShufflePrefixKeepsDistinct<T>(s: seq<T>, ks: seq<nat>, n: nat)
    requires n <= |s| && ValidDraws(ks, n) && Distinct(s)
    ensures Distinct(ShufflePrefix(s, ks, n))
    decreases n
  {
    if n > 1 {
      var s' := Swap(s, n - 1, ks[0]);
      forall i, j | 0 <= i < j < |s'| ensures s'[i] != s'[j] {
        var i' := if i == n - 1 then ks[0] else if i == ks[0] then n - 1 else i;
        var j' := if j == n - 1 then ks[0] else if j == ks[0] then n - 1 else j;
        assert s'[i] == s[i'] && s'[j] == s[j'] && i' != j';
      }
      ShufflePrefixKeepsDistinct(s', ks[1..], n - 1);
    }
  }

  /** The draws that swap every position with itself: draw `j` is `n - 1 - j`. */
  function StayDraws(n: nat): (ks: seq<nat>)
    ensures ValidDraws(ks, n)
  {
    seq(DrawCount(n), j requires 0 <= j < DrawCount(n) => n - 1 - j)
  }

  /** With every draw at the counter itself, the shuffle leaves the order as it is. */
  lemma {:induction false} StayDrawsKeepOrder<T>(s: seq<T>, n: nat)
    requires n <= |s|
    ensures ShufflePrefix(s, StayDraws(n), n) == s
    decreases n
  {
    if n > 1 {
      assert Swap(s, n - 1, n - 1) == s;
      assert StayDraws(n)[1..] == StayDraws(n - 1);
      StayDrawsKeepOrder(s, n - 1);
    }
  }

  /** The draws that exchange the first and the last value and keep the rest in place. */
  function SwapEndsDraws(n: nat): (ks: seq<nat>)
    ensures ValidDraws(ks, n)
  {
    if n <= 1 then [] else [0] + StayDraws(n - 1)
  }

  lemma SwapEndsDrawsSwapEnds<T>(s: seq<T>)
    requires |s| >= 1
    ensures Shuffled(s, SwapEndsDraws(|s|)) == Swap(s, |s| - 1, 0)
  {
    var n := |s|;
    if n > 1 {
      assert SwapEndsDraws(n)[1..] == StayDraws(n - 1);
      StayDrawsKeepOrder(Swap(s, n - 1, 0), n - 1);
    } else {
      assert Swap(s, 0, 0) == s;
    }
  }
}
