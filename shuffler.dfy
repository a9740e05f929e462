/**
 * The array implementation of the pipeline, as static operations over arrays
 * of lines.  An array entry that was never written holds `null`, here `None`.
 */
module GroupPlaylistShuffler {
  import opened Options
  import opened Arithmetic
  import opened Permutations
  import opened FisherYates
  import opened RoundRobin
  import opened Sections

  /** One line of a contributor's file, or nothing in an unwritten array slot. */
  type Line = Option<string>

  /**
   * Copies `length` entries of `src` from `srcIndex` into `dst` from
   * `dstIndex`, all reads before any write, and leaves the rest of `dst` alone.
   */
  method ArrayCopy<T>(src: array<T>, srcIndex: nat, dst: array<T>, dstIndex: nat, length: nat)
    requires srcIndex + length <= src.Length && dstIndex + length <= dst.Length
    modifies dst
    ensures dst[..] == old(dst[..dstIndex]) + old(src[srcIndex .. srcIndex + length]) + old(dst[dstIndex + length ..])
  {
    forall k | 0 <= k < length {
      dst[dstIndex + k] := src[srcIndex + k];
    }
  }

  /**
   * The Fisher-Yates shuffle in place: while more than one position is
   * left, draw `k` below the counter, decrement the counter and swap the
   * entries at the counter and at `k`.  The array returned is the one given.
   */
  method Shuffle(input: array<Line>, ks: seq<nat>) returns (output: array<Line>)
    requires ValidDraws(ks, input.Length)
    modifies input
    ensures output == input
    ensures input[..] == Shuffled(old(input[..]), ks)
    ensures multiset(input[..]) == multiset(old(input[..]))
    ensures input.Length <= 1 ==> input[..] == old(input[..])
  {
    output := input;
    var n: nat := input.Length;
    var j: nat := 0;
    while n > 1
      invariant output == input
      invariant n <= input.Length
      invariant j <= |ks|
      invariant ValidDraws(ks[j..], n)
      invariant ShufflePrefix(input[..], ks[j..], n) == Shuffled(old(input[..]), ks)
    {
      ghost var before := input[..];
      ShuffleStep(before, ks, j, n);
      var k := ks[j];
      n := n - 1;
      var temp := output[n];
      output[n] := output[k];
      output[k] := temp;
      assert input[..] == Swap(before, n, k);
      j := j + 1;
    }
    ShuffledIsPermutation(old(input[..]), ks);
  }

  /**
   * Round-robin distribution of the concatenated lists of `totalUsers`
   * contributors: no result when the lines do not split evenly, otherwise a
   * new array with line `i` at `i / songsPerUser + totalUsers * (i % songsPerUser)`.
   */
  method DistributePlaylist(input: seq<Line>, totalUsers: int) returns (output: array?<Line>)
    requires totalUsers >= 1
    ensures output == null <==> |input| % totalUsers != 0
    ensures output != null ==> fresh(output) && output[..] == Distributed(input, totalUsers)
    ensures output != null ==> multiset(output[..]) == multiset(input)
  {
    if |input| % totalUsers != 0 {
      return null;
    }
    var totalSongs := |input|;
    var songsPerUser := totalSongs / totalUsers;
    ExactQuotient(totalSongs, totalUsers);
    output := new Line[totalSongs](_ => None);
    for i := 0 to totalSongs
      invariant PlacedBelow(output[..], input, totalUsers, songsPerUser, i)
    {
      var user := i / songsPerUser;
      var songIndex := i % songsPerUser;
      PlaceNext(output[..], input, totalUsers, songsPerUser, i);
      ghost var before := output[..];
      output[user + totalUsers * songIndex] := input[i];
      assert output[..] == before[user + totalUsers * songIndex := input[i]];
    }
    PlacedAllIsDistributed(output[..], input, totalUsers);
    DistributedIsPermutation(input, totalUsers);
  }

  /**
   * The body of the section-shuffle loop for the window starting at `lo`:
   * copy the window out into a new array, shuffle that array and copy it back.
   */
  method ShuffleWindowInto(input: array<Line>, output: array<Line>, lo: nat, size: nat, ks: seq<nat>)
    requires lo + size <= input.Length && lo + size <= output.Length
    requires ValidDraws(ks, size)
    modifies output
    ensures output[..] == old(output[..lo]) + Shuffled(old(input[lo .. lo + size]), ks) + old(output[lo + size ..])
  {
    var subsection := new Line[size](_ => None);
    ArrayCopy(input, lo, subsection, 0, size);
    assert subsection[..] == old(input[lo .. lo + size]);
    var _ := Shuffle(subsection, ks);
    ghost var before := output[..];
    ghost var shuffled := subsection[..];
    assert before == old(output[..]);
    assert shuffled == Shuffled(old(input[lo .. lo + size]), ks);
    assert subsection[0 .. 0 + size] == shuffled;
    assert output[..lo] == before[..lo] && output[lo + size ..] == before[lo + size ..];
    ArrayCopy(subsection, 0, output, lo, size);
    assert output[..] == before[..lo] + shuffled + before[lo + size ..];
  }

  /** C# integer division, which truncates toward zero, of a length by a non-zero count. */
  function TruncatedDiv(len: nat, count: int): (q: int)
    requires count != 0
    ensures count > 0 ==> q == len / count
    ensures count < 0 ==> q <= 0
  {
    if count > 0 then len / count else -(len / -count)
  }

  /** Window `i` of `len` items, for `i` below the number of whole windows, fits. */
  lemma NextWindowFits(i: nat, size: nat, len: nat)
    requires size >= 1 && i < len / size
    ensures i * size + size <= len && (i + 1) * size == i * size + size
  {
    QuotientBound(len, size);
    MulMonotone(i + 1, len / size, size);
    MulSucc(i, size);
  }

  /**
   * The state of the output after `i` windows: they hold the first `i`
   * windows of the section shuffle and every slot after them is unwritten.
   */
  ghost predicate WindowsWritten(out: seq<Line>, s: seq<Line>, size: nat, kss: seq<seq<nat>>, i: nat) {
    && |out| == |s| && i * size <= |s| && i <= |kss|
    && (forall v :: 0 <= v < i ==> ValidDraws(kss[v], size))
    && out[..i * size] == ShuffledWindows(s, size, kss, i)
    && forall p :: i * size <= p < |out| ==> out[p] == None
  }

  /** Shuffling window `i` into place extends the written windows by one. */
  lemma SectionStep(before: seq<Line>, after: seq<Line>, s: seq<Line>, size: nat, kss: seq<seq<nat>>, i: nat)
    requires WindowsWritten(before, s, size, kss, i)
    requires i < |kss| && ValidDraws(kss[i], size) && i * size + size <= |s|
    requires after == before[..i * size] + Shuffled(s[i * size .. i * size + size], kss[i]) + before[i * size + size ..]
    ensures WindowsWritten(after, s, size, kss, i + 1)
  {
    MulSucc(i, size);
    var done := i * size;
    assert Window(s, size, i) == s[done .. done + size];
    assert ShuffledWindows(s, size, kss, i + 1) == ShuffledWindows(s, size, kss, i) + Shuffled(Window(s, size, i), kss[i]);
    assert after[..done + size] == before[..done] + Shuffled(s[done .. done + size], kss[i]);
    assert forall p :: done + size <= p < |after| ==> after[p] == before[p];
  }

  /** Once every whole window is written, the output is the section shuffle followed by unwritten slots. */
  lemma AllWindowsWritten(out: seq<Line>, s: seq<Line>, size: nat, kss: seq<seq<nat>>, i: nat)
    requires size >= 1 && i == |s| / size && ValidSectionDraws(kss, i, size)
    requires WindowsWritten(out, s, size, kss, i)
    ensures
      var whole := (|s| / size) * size;
      && whole <= |out|
      && out[..whole] == ShuffledSections(s, size, kss)
      && forall p :: whole <= p < |out| ==> out[p] == None
  {
  }

  /**
   * The section shuffle into a new array of the same length: each whole
   * window of `totalUsers` lines is copied out, shuffled and copied back at
   * the same place; the slots after the last whole window stay unwritten.
   * C# division truncates toward zero, so a negative `totalUsers` gives no
   * window at all.
   */
  method ShufflePlaylist(input: array<Line>, totalUsers: int, kss: seq<seq<nat>>) returns (output: array<Line>)
    requires totalUsers != 0
    requires totalUsers >= 1 ==> ValidSectionDraws(kss, input.Length / totalUsers, totalUsers)
    ensures fresh(output) && output.Length == input.Length
    ensures totalUsers >= 1 ==>
      var whole := (input.Length / totalUsers) * totalUsers;
      && whole <= output.Length
      && output[..whole] == ShuffledSections(input[..], totalUsers, kss)
      && forall p :: whole <= p < output.Length ==> output[p] == None
    ensures totalUsers < 0 ==> forall p :: 0 <= p < output.Length ==> output[p] == None
  {
    output := new Line[input.Length](_ => None);
    var songsPerUser := TruncatedDiv(input.Length, totalUsers);
    var i := 0;
    ghost var size: nat := if totalUsers >= 1 then totalUsers else 0;
    while i < songsPerUser
      invariant 0 <= i
      invariant i == 0 || (totalUsers >= 1 && i <= songsPerUser)
      invariant WindowsWritten(output[..], input[..], size, kss, i)
    {
      assert size == totalUsers && i < |kss| && ValidDraws(kss[i], size);
      NextWindowFits(i, size, input.Length);
      ghost var before := output[..];
      ShuffleWindowInto(input, output, i * totalUsers, totalUsers, kss[i]);
      SectionStep(before, output[..], input[..], size, kss, i);
      i := i + 1;
    }
    if totalUsers >= 1 {
      assert size == totalUsers && i == input.Length / totalUsers;
      AllWindowsWritten(output[..], input[..], size, kss, i);
    }
  }
}
