/**
 * The section shuffle: the distributed order is cut into consecutive
 * windows of `size` items and each window is shuffled on its own; items
 * after the last whole window are not part of the result.
 */
module Sections {
  import opened Permutations
  import opened FisherYates
  import opened Arithmetic

  /** Window `w`: the items at positions `w * size` up to `w * size + size - 1`. */
  function Window<T>(s: seq<T>, size: nat, w: nat): (r: seq<T>)
    requires (w + 1) * size <= |s|
    ensures |r| == size
  {
    s[w * size .. w * size + size]
  }

  /** `kss[w]` holds the draws for shuffling window `w`, for each of `windows` windows. */
  predicate ValidSectionDraws(kss: seq<seq<nat>>, windows: nat, size: nat) {
    && |kss| == windows
    && forall w :: 0 <= w < windows ==> ValidDraws(kss[w], size)
  }

  /** The first `w` windows of `s`, each shuffled with its own draws, one after another. */
  function ShuffledWindows<T>(s: seq<T>, size: nat, kss: seq<seq<nat>>, w: nat): (r: seq<T>)
    requires w * size <= |s| && w <= |kss|
    requires forall v :: 0 <= v < w ==> ValidDraws(kss[v], size)
    ensures |r| == w * size
    decreases w
  {
    if w == 0 then []
    else
      WindowStep(w, size);
      ShuffledWindows(s, size, kss, w - 1) + Shuffled(Window(s, size, w - 1), kss[w - 1])
  }

  /** Every whole window of `s`, shuffled; the trailing remainder is dropped. */
  function ShuffledSections<T>(s: seq<T>, size: nat, kss: seq<seq<nat>>): (r: seq<T>)
    requires size >= 1 && ValidSectionDraws(kss, |s| / size, size)
    ensures |r| == (|s| / size) * size
  {
    QuotientBound(|s|, size);
    ShuffledWindows(s, size, kss, |s| / size)
  }

  /** A window that lies inside `t` is the same window of `t + u`. */
  lemma WindowOfPrefix<T>(t: seq<T>, u: seq<T>, size: nat, v: nat)
    requires (v + 1) * size <= |t|
    ensures Window(t + u, size, v) == Window(t, size, v)
  {
    var lo := v * size;
    assert (t + u)[lo .. lo + size] == t[lo .. lo + size];
  }

  /** The window right after `t`, when `t` is `v` windows long, is `u`. */
  lemma WindowAfterPrefix<T>(t: seq<T>, u: seq<T>, size: nat, v: nat)
    requires |t| == v * size && |u| == size
    ensures (v + 1) * size <= |t + u|
    ensures Window(t + u, size, v) == u
  {
    MulSucc(v, size);
    assert (t + u)[|t| .. |t| + size] == u;
  }

  /** The result of `w` windows is that of `w - 1` windows followed by window `w - 1`, shuffled. */
  lemma ShuffledWindowsStep<T>(s: seq<T>, size: nat, kss: seq<seq<nat>>, w: nat)
    requires 0 < w && w * size <= |s| && w <= |kss|
    requires forall v :: 0 <= v < w ==> ValidDraws(kss[v], size)
    ensures (w - 1) * size + size == w * size
    ensures ShuffledWindows(s, size, kss, w)
         == ShuffledWindows(s, size, kss, w - 1) + Shuffled(Window(s, size, w - 1), kss[w - 1])
  {
    WindowStep(w, size);
  }

  /** Window `v` of the result is window `v` of the input, shuffled with `kss[v]`. */
  lemma {:induction false} ShuffledWindowsAt<T>(s: seq<T>, size: nat, kss: seq<seq<nat>>, w: nat, v: nat)
    requires w * size <= |s| && w <= |kss|
    requires forall v :: 0 <= v < w ==> ValidDraws(kss[v], size)
    requires v < w
    ensures (v + 1) * size <= w * size
    ensures Window(ShuffledWindows(s, size, kss, w), size, v) == Shuffled(Window(s, size, v), kss[v])
    decreases w
  {
    MulMonotone(v + 1, w, size);
    ShuffledWindowsStep(s, size, kss, w);
    var prefix := ShuffledWindows(s, size, kss, w - 1);
    var last := Shuffled(Window(s, size, w - 1), kss[w - 1]);
    if v < w - 1 {
      MulMonotone(v + 1, w - 1, size);
      ShuffledWindowsAt(s, size, kss, w - 1, v);
      WindowOfPrefix(prefix, last, size, v);
    } else {
      WindowAfterPrefix(prefix, last, size, v);
    }
  }

  /** The first `w` windows of `s` are its first `w - 1` windows followed by window `w - 1`. */
  lemma PrefixOfWindows<T>(s: seq<T>, size: nat, w: nat)
    requires 0 < w && w * size <= |s|
    ensures (w - 1) * size <= w * size
    ensures s[..w * size] == s[..(w - 1) * size] + Window(s, size, w - 1)
  {
    WindowStep(w, size);
    var lo := (w - 1) * size;
    assert s[..lo + size] == s[..lo] + s[lo .. lo + size];
  }

  /** The windows kept are a permutation of the input's first `w` windows. */
  lemma {:induction false} ShuffledWindowsIsPermutation<T>(s: seq<T>, size: nat, kss: seq<seq<nat>>, w: nat)
    requires w * size <= |s| && w <= |kss|
    requires forall v :: 0 <= v < w ==> ValidDraws(kss[v], size)
    ensures multiset(ShuffledWindows(s, size, kss, w)) == multiset(s[..w * size])
    decreases w
  {
    if w > 0 {
      ShuffledWindowsStep(s, size, kss, w);
      PrefixOfWindows(s, size, w);
      ShuffledWindowsIsPermutation(s, size, kss, w - 1);
      ShuffledIsPermutation(Window(s, size, w - 1), kss[w - 1]);
    }
  }

  /** Each window of the section shuffle is a permutation of the same window of its input. */
  lemma ShuffledSectionsWindow<T>(s: seq<T>, size: nat, kss: seq<seq<nat>>, v: nat)
    requires size >= 1 && ValidSectionDraws(kss, |s| / size, size)
    requires v < |s| / size
    ensures (v + 1) * size <= (|s| / size) * size <= |s|
    ensures Window(ShuffledSections(s, size, kss), size, v) == Shuffled(Window(s, size, v), kss[v])
    ensures multiset(Window(ShuffledSections(s, size, kss), size, v)) == multiset(Window(s, size, v))
  {
    QuotientBound(|s|, size);
    MulMonotone(v + 1, |s| / size, size);
    ShuffledWindowsAt(s, size, kss, |s| / size, v);
    ShuffledIsPermutation(Window(s, size, v), kss[v]);
  }

  /** The section shuffle is a permutation of the whole windows of its input; the remainder is dropped. */
  lemma ShuffledSectionsIsPermutation<T>(s: seq<T>, size: nat, kss: seq<seq<nat>>)
    requires size >= 1 && ValidSectionDraws(kss, |s| / size, size)
    ensures multiset(ShuffledSections(s, size, kss)) == multiset(s[..(|s| / size) * size])
  {
    QuotientBound(|s|, size);
    ShuffledWindowsIsPermutation(s, size, kss, |s| / size);
  }

  /** The section shuffle moves items without looking at them, so it commutes with `Map`. */
  lemma {:induction false} ShuffledWindowsMap<T, U>(f: T -> U, s: seq<T>, size: nat, kss: seq<seq<nat>>, w: nat)
    requires w * size <= |s| && w <= |kss|
    requires forall v :: 0 <= v < w ==> ValidDraws(kss[v], size)
    ensures ShuffledWindows(Map(f, s), size, kss, w) == Map(f, ShuffledWindows(s, size, kss, w))
    decreases w
  {
    if w == 0 {
      assert Map(f, ShuffledWindows(s, size, kss, w)) == [];
    } else {
      var v := w - 1;
      MulSucc(v, size);
      ShuffledWindowsStep(s, size, kss, w);
      ShuffledWindowsStep(Map(f, s), size, kss, w);
      ShuffledWindowsMap(f, s, size, kss, v);
      ShuffledWindowMap(f, s, size, kss[v], v);
      var prefix := ShuffledWindows(s, size, kss, v);
      var last := Shuffled(Window(s, size, v), kss[v]);
      MapConcat(f, prefix, last);
    }
  }

  lemma ShuffledWindowMap<T, U>(f: T -> U, s: seq<T>, size: nat, ks: seq<nat>, v: nat)
    requires (v + 1) * size <= |s| && ValidDraws(ks, size)
    ensures Shuffled(Window(Map(f, s), size, v), ks) == Map(f, Shuffled(Window(s, size, v), ks))
  {
    MapSlice(f, s, v * size, v * size + size);
    ShufflePrefixMap(f, Window(s, size, v), ks, size);
  }
}
