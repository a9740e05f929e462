/**
 * The fairness promise of the whole pipeline.  With `N` contributors of
 * `songsPerUser` items each, concatenated in contributor order, distributing
 * and then shuffling each window of `N` gives an order in which
 *  - every window holds exactly one item of every contributor,
 *  - two consecutive items of one contributor have at most `2 * (N - 1)`
 *    items of others between them, and
 *  - no contributor has three items in a row (for `N >= 2`).
 * Contributors are tracked by running the pipeline on owner labels: the
 * stages move values without looking at them, so the label found at a
 * position is the contributor of the item found there.
 */
module Fairness {
  import opened Permutations
  import opened FisherYates
  import opened Arithmetic
  import opened RoundRobin
  import opened Sections

  /** A concatenation of `totalUsers` lists of `songsPerUser` items splits evenly into windows. */
  lemma EvenShape(totalUsers: nat, songsPerUser: nat)
    requires totalUsers >= 1
    ensures (totalUsers * songsPerUser) % totalUsers == 0
    ensures (totalUsers * songsPerUser) / totalUsers == songsPerUser
  {
    DivModOf(songsPerUser, totalUsers, 0);
  }

  /**
   * Distribution followed by the shuffle of each window, for `totalUsers`
   * lists of `songsPerUser` items each.
   */
  function FairOrder<T>(s: seq<T>, totalUsers: nat, songsPerUser: nat, kss: seq<seq<nat>>): (r: seq<T>)
    requires totalUsers >= 1 && |s| == totalUsers * songsPerUser
    requires ValidSectionDraws(kss, songsPerUser, totalUsers)
    ensures |r| == |s|
  {
    EvenShape(totalUsers, songsPerUser);
    ShuffledSections(Distributed(s, totalUsers), totalUsers, kss)
  }

  /** The fair order neither adds, drops nor duplicates an item. */
  lemma FairOrderIsPermutation<T>(s: seq<T>, totalUsers: nat, songsPerUser: nat, kss: seq<seq<nat>>)
    requires totalUsers >= 1 && |s| == totalUsers * songsPerUser
    requires ValidSectionDraws(kss, songsPerUser, totalUsers)
    ensures multiset(FairOrder(s, totalUsers, songsPerUser, kss)) == multiset(s)
  {
    EvenShape(totalUsers, songsPerUser);
    var d := Distributed(s, totalUsers);
    DistributedIsPermutation(s, totalUsers);
    ShuffledSectionsIsPermutation(d, totalUsers, kss);
    assert d[..songsPerUser * totalUsers] == d;
  }

  /** Item `w` of every contributor, in contributor order. */
  function Round<T>(s: seq<T>, totalUsers: nat, songsPerUser: nat, w: nat): (r: seq<T>)
    requires |s| == totalUsers * songsPerUser && w < songsPerUser
    ensures |r| == totalUsers
  {
    seq(totalUsers, u requires 0 <= u < totalUsers =>
      MulMonotone(u + 1, totalUsers, songsPerUser);
      s[u * songsPerUser + w])
  }

  /** Window `w` of the fair order is item `w` of every contributor, shuffled with `kss[w]`. */
  lemma FairOrderWindow<T>(s: seq<T>, totalUsers: nat, songsPerUser: nat, kss: seq<seq<nat>>, w: nat)
    requires totalUsers >= 1 && |s| == totalUsers * songsPerUser
    requires ValidSectionDraws(kss, songsPerUser, totalUsers)
    requires w < songsPerUser
    ensures (w + 1) * totalUsers <= |s|
    ensures Window(FairOrder(s, totalUsers, songsPerUser, kss), totalUsers, w)
         == Shuffled(Round(s, totalUsers, songsPerUser, w), kss[w])
  {
    EvenShape(totalUsers, songsPerUser);
    MulMonotone(w + 1, songsPerUser, totalUsers);
    var d := Distributed(s, totalUsers);
    var round := Round(s, totalUsers, songsPerUser, w);
    forall u | 0 <= u < totalUsers
      ensures Window(d, totalUsers, w)[u] == round[u]
    {
      DistributedRoundRobin(s, totalUsers, w, u);
    }
    assert Window(d, totalUsers, w) == round;
    ShuffledSectionsWindow(d, totalUsers, kss, w);
  }

  /** Window `w` of the fair order holds exactly item `w` of every contributor. */
  lemma FairOrderWindowContents<T>(s: seq<T>, totalUsers: nat, songsPerUser: nat, kss: seq<seq<nat>>, w: nat)
    requires totalUsers >= 1 && |s| == totalUsers * songsPerUser
    requires ValidSectionDraws(kss, songsPerUser, totalUsers)
    requires w < songsPerUser
    ensures (w + 1) * totalUsers <= |s|
    ensures multiset(Window(FairOrder(s, totalUsers, songsPerUser, kss), totalUsers, w))
         == multiset(Round(s, totalUsers, songsPerUser, w))
  {
    FairOrderWindow(s, totalUsers, songsPerUser, kss, w);
    ShuffledIsPermutation(Round(s, totalUsers, songsPerUser, w), kss[w]);
  }

  lemma FairOrderMap<T, U>(f: T -> U, s: seq<T>, totalUsers: nat, songsPerUser: nat, kss: seq<seq<nat>>)
    requires totalUsers >= 1 && |s| == totalUsers * songsPerUser
    requires ValidSectionDraws(kss, songsPerUser, totalUsers)
    ensures FairOrder(Map(f, s), totalUsers, songsPerUser, kss) == Map(f, FairOrder(s, totalUsers, songsPerUser, kss))
  {
    EvenShape(totalUsers, songsPerUser);
    var d := Distributed(s, totalUsers);
    DistributedMap(f, s, totalUsers);
    ShuffledWindowsMap(f, d, totalUsers, kss, songsPerUser);
  }

  /** The contributor of each item of the concatenated lists: item `i` belongs to contributor `i / songsPerUser`. */
  function Owners(totalUsers: nat, songsPerUser: nat): (r: seq<nat>)
    requires songsPerUser >= 1
    ensures |r| == totalUsers * songsPerUser
  {
    seq(totalUsers * songsPerUser, i requires 0 <= i < totalUsers * songsPerUser => i / songsPerUser)
  }

  /** The contributor found at each position of the fair order. */
  function FairOwners(totalUsers: nat, songsPerUser: nat, kss: seq<seq<nat>>): (r: seq<nat>)
    requires totalUsers >= 1 && songsPerUser >= 1
    requires ValidSectionDraws(kss, songsPerUser, totalUsers)
    ensures |r| == totalUsers * songsPerUser
  {
    FairOrder(Owners(totalUsers, songsPerUser), totalUsers, songsPerUser, kss)
  }

  /** Every label of the fair order of the positions `0 .. n - 1` is a position of the input. */
  lemma FairOrderOfPositionsInRange(n: nat, totalUsers: nat, songsPerUser: nat, kss: seq<seq<nat>>)
    requires totalUsers >= 1 && n == totalUsers * songsPerUser
    requires ValidSectionDraws(kss, songsPerUser, totalUsers)
    ensures forall p :: 0 <= p < n ==> FairOrder<nat>(Iota(n), totalUsers, songsPerUser, kss)[p] < n
  {
    var origin := FairOrder<nat>(Iota(n), totalUsers, songsPerUser, kss);
    FairOrderIsPermutation(Iota(n), totalUsers, songsPerUser, kss);
    forall p | 0 <= p < n ensures origin[p] < n {
      assert origin[p] in multiset(Iota(n));
    }
  }

  /**
   * Whatever the items are, position `p` of the fair order holds the input
   * item at position `origin[p]`, where `origin` is the fair order of the
   * positions themselves: the pipeline moves items without looking at them.
   */
  lemma FairOrderTakesFrom<T>(s: seq<T>, totalUsers: nat, songsPerUser: nat, kss: seq<seq<nat>>, p: nat)
    requires totalUsers >= 1 && |s| == totalUsers * songsPerUser
    requires ValidSectionDraws(kss, songsPerUser, totalUsers)
    requires p < |s|
    ensures var origin := FairOrder<nat>(Iota(|s|), totalUsers, songsPerUser, kss);
      origin[p] < |s| && FairOrder(s, totalUsers, songsPerUser, kss)[p] == s[origin[p]]
  {
    var n := |s|;
    var origin := FairOrder<nat>(Iota(n), totalUsers, songsPerUser, kss);
    FairOrderOfPositionsInRange(n, totalUsers, songsPerUser, kss);
    var item := (j: nat) => if j < n then s[j] else s[0];
    assert Map(item, Iota(n)) == s;
    FairOrderMap(item, Iota(n), totalUsers, songsPerUser, kss);
    assert FairOrder(s, totalUsers, songsPerUser, kss)[p] == item(origin[p]);
  }

  /**
   * The label `FairOwners` has at position `p` is the contributor of the
   * input item found there: `origin[p] / songsPerUser`.
   */
  lemma FairOwnersTrackItems(totalUsers: nat, songsPerUser: nat, kss: seq<seq<nat>>, p: nat)
    requires totalUsers >= 1 && songsPerUser >= 1
    requires ValidSectionDraws(kss, songsPerUser, totalUsers)
    requires p < totalUsers * songsPerUser
    ensures var origin := FairOrder<nat>(Iota(totalUsers * songsPerUser), totalUsers, songsPerUser, kss);
      origin[p] < totalUsers * songsPerUser
      && FairOwners(totalUsers, songsPerUser, kss)[p] == origin[p] / songsPerUser
  {
    var n := totalUsers * songsPerUser;
    var origin := FairOrder<nat>(Iota(n), totalUsers, songsPerUser, kss);
    FairOrderOfPositionsInRange(n, totalUsers, songsPerUser, kss);
    var owner: nat -> nat := j => j / songsPerUser;
    assert Map(owner, Iota(n)) == Owners(totalUsers, songsPerUser);
    FairOrderMap(owner, Iota(n), totalUsers, songsPerUser, kss);
    assert FairOwners(totalUsers, songsPerUser, kss)[p] == owner(origin[p]);
  }

  /** Some position among `lo .. lo + n - 1` of `o` holds label `u`. */
  ghost predicate Holds(o: seq<nat>, lo: nat, n: nat, u: nat) {
    exists p :: lo <= p < lo + n && p < |o| && o[p] == u
  }

  /** Positions `lo .. lo + n - 1` of `o` hold each of the labels `0 .. n - 1` exactly once. */
  ghost predicate EachOnce(o: seq<nat>, lo: nat, n: nat) {
    && lo + n <= |o|
    && (forall p :: lo <= p < lo + n ==> o[p] < n)
    && (forall p, q :: lo <= p < q < lo + n ==> o[p] != o[q])
    && (forall u :: 0 <= u < n ==> Holds(o, lo, n, u))
  }

  /** `o` consists of `windows` windows of `n` labels, each holding every label once. */
  ghost predicate FairWindows(o: seq<nat>, n: nat, windows: nat) {
    && |o| == windows * n
    && forall w :: 0 <= w < windows ==> EachOnce(o, w * n, n)
  }

  /** Item `w` of every contributor's list is owned by that contributor. */
  lemma RoundOfOwners(totalUsers: nat, songsPerUser: nat, w: nat)
    requires songsPerUser >= 1 && w < songsPerUser
    ensures Round(Owners(totalUsers, songsPerUser), totalUsers, songsPerUser, w) == Iota(totalUsers)
  {
    var round := Round(Owners(totalUsers, songsPerUser), totalUsers, songsPerUser, w);
    forall u | 0 <= u < totalUsers ensures round[u] == u {
      MulMonotone(u + 1, totalUsers, songsPerUser);
      DivModOf(u, songsPerUser, w);
    }
  }

  /** A stretch of `n` labels that is a shuffle of `0 .. n - 1` holds every label once. */
  lemma EachOnceWhenShuffledIota(o: seq<nat>, lo: nat, n: nat, ks: seq<nat>)
    requires lo + n <= |o| && ValidDraws(ks, n)
    requires o[lo .. lo + n] == Shuffled(Iota(n), ks)
    ensures EachOnce(o, lo, n)
  {
    var t := Shuffled(Iota(n), ks);
    ShuffledIsPermutation(Iota(n), ks);
    ShufflePrefixKeepsDistinct(Iota(n), ks, n);
    forall p | lo <= p < lo + n ensures o[p] < n {
      assert o[p] == t[p - lo];
      assert t[p - lo] in multiset(Iota(n));
    }
    forall p, q | lo <= p < q < lo + n ensures o[p] != o[q] {
      assert o[p] == t[p - lo] && o[q] == t[q - lo];
    }
    forall u | 0 <= u < n ensures Holds(o, lo, n, u) {
      assert Iota(n)[u] == u;
      assert u in multiset(t);
      var i :| 0 <= i < n && t[i] == u;
      assert o[lo + i] == u;
    }
  }

  /** Every window of the fair order holds exactly one item of every contributor. */
  lemma OnePerContributorPerWindow(totalUsers: nat, songsPerUser: nat, kss: seq<seq<nat>>, w: nat)
    requires totalUsers >= 1 && songsPerUser >= 1
    requires ValidSectionDraws(kss, songsPerUser, totalUsers)
    requires w < songsPerUser
    ensures EachOnce(FairOwners(totalUsers, songsPerUser, kss), w * totalUsers, totalUsers)
  {
    var o := FairOwners(totalUsers, songsPerUser, kss);
    MulMonotone(0, w, totalUsers);
    var lo: nat := w * totalUsers;
    FairOrderWindow(Owners(totalUsers, songsPerUser), totalUsers, songsPerUser, kss, w);
    RoundOfOwners(totalUsers, songsPerUser, w);
    MulSucc(w, totalUsers);
    assert o[lo .. lo + totalUsers] == Window(o, totalUsers, w) == Shuffled(Iota(totalUsers), kss[w]);
    EachOnceWhenShuffledIota(o, lo, totalUsers, kss[w]);
  }

  lemma FairOwnersWindows(totalUsers: nat, songsPerUser: nat, kss: seq<seq<nat>>)
    requires totalUsers >= 1 && songsPerUser >= 1
    requires ValidSectionDraws(kss, songsPerUser, totalUsers)
    ensures FairWindows(FairOwners(totalUsers, songsPerUser, kss), totalUsers, songsPerUser)
  {
    forall w | 0 <= w < songsPerUser
      ensures EachOnce(FairOwners(totalUsers, songsPerUser, kss), w * totalUsers, totalUsers)
    {
      OnePerContributorPerWindow(totalUsers, songsPerUser, kss, w);
    }
  }

  /** The window that position `p` lies in. */
  lemma WindowIndex(p: nat, n: nat, windows: nat) returns (w: nat)
    requires n >= 1 && p < windows * n
    ensures w < windows && w * n <= p < w * n + n
  {
    w := p / n;
    if w >= windows { MulMonotone(windows, w, n); }
  }

  /** Window `w` holds label `u` at some position `r`. */
  lemma LabelInWindow(o: seq<nat>, n: nat, windows: nat, w: nat, u: nat) returns (r: nat)
    requires FairWindows(o, n, windows) && w < windows && u < n
    ensures w * n <= r < w * n + n && r < |o| && o[r] == u
  {
    assert EachOnce(o, w * n, n);
    assert Holds(o, w * n, n, u);
    r :| w * n <= r < w * n + n && r < |o| && o[r] == u;
  }

  /**
   * In a sequence of fair windows, between two consecutive occurrences of a
   * label there are at most `2 * (n - 1)` other labels: the next occurrence
   * lies no later than the following window.
   */
  lemma FairWindowsGap(o: seq<nat>, n: nat, windows: nat, p: nat, q: nat)
    requires n >= 1 && FairWindows(o, n, windows)
    requires p < q < |o| && o[p] == o[q]
    requires forall r :: p < r < q ==> o[r] != o[p]
    ensures q - p - 1 <= 2 * (n - 1)
  {
    var wp := WindowIndex(p, n, windows);
    MulSucc(wp, n);
    MulSucc(wp + 1, n);
    assert EachOnce(o, wp * n, n);
    if wp + 1 < windows {
      var r := LabelInWindow(o, n, windows, wp + 1, o[p]);
    }
  }

  /** In a sequence of fair windows of at least two labels, no label occurs three times in a row. */
  lemma FairWindowsNoThreeInARow(o: seq<nat>, n: nat, windows: nat, p: nat)
    requires n >= 2 && FairWindows(o, n, windows)
    requires p + 2 < |o|
    ensures o[p] != o[p + 1] || o[p + 1] != o[p + 2]
  {
    var w := WindowIndex(p, n, windows);
    assert EachOnce(o, w * n, n);
    if p + 1 == w * n + n {
      MulSucc(w, n);
      MulStrict(w + 1, windows, n);
      assert EachOnce(o, (w + 1) * n, n);
    }
  }

  /**
   * Between two consecutive items of one contributor in the fair order there
   * are at most `2 * (N - 1)` items of other contributors.
   */
  lemma GapAtMostTwiceOthers(totalUsers: nat, songsPerUser: nat, kss: seq<seq<nat>>, p: nat, q: nat)
    requires totalUsers >= 1 && songsPerUser >= 1
    requires ValidSectionDraws(kss, songsPerUser, totalUsers)
    requires p < q < totalUsers * songsPerUser
    requires FairOwners(totalUsers, songsPerUser, kss)[p] == FairOwners(totalUsers, songsPerUser, kss)[q]
    requires forall r :: p < r < q ==> FairOwners(totalUsers, songsPerUser, kss)[r] != FairOwners(totalUsers, songsPerUser, kss)[p]
    ensures q - p - 1 <= 2 * (totalUsers - 1)
  {
    FairOwnersWindows(totalUsers, songsPerUser, kss);
    FairWindowsGap(FairOwners(totalUsers, songsPerUser, kss), totalUsers, songsPerUser, p, q);
  }

  /** With at least two contributors, no contributor has three items in a row in the fair order. */
  lemma NoThreeInARow(totalUsers: nat, songsPerUser: nat, kss: seq<seq<nat>>, p: nat)
    requires totalUsers >= 2 && songsPerUser >= 1
    requires ValidSectionDraws(kss, songsPerUser, totalUsers)
    requires p + 2 < totalUsers * songsPerUser
    ensures var o := FairOwners(totalUsers, songsPerUser, kss);
      o[p] != o[p + 1] || o[p + 1] != o[p + 2]
  {
    FairOwnersWindows(totalUsers, songsPerUser, kss);
    FairWindowsNoThreeInARow(FairOwners(totalUsers, songsPerUser, kss), totalUsers, songsPerUser, p);
  }

  /**
   * The draws under which the gap bound is met: every window keeps its order
   * except the second, whose first and last items change places.
   */
  function WorstGapDraws(totalUsers: nat, songsPerUser: nat): (kss: seq<seq<nat>>)
    ensures ValidSectionDraws(kss, songsPerUser, totalUsers)
  {
    var kss := seq(songsPerUser, w requires 0 <= w < songsPerUser =>
      if w == 1 then SwapEndsDraws(totalUsers) else StayDraws(totalUsers));
    assert forall w :: 0 <= w < songsPerUser ==> kss[w] == SwapEndsDraws(totalUsers) || kss[w] == StayDraws(totalUsers);
    kss
  }

  /**
   * The bound `2 * (N - 1)` is reached: contributor 0 can play first, then
   * every other contributor twice, then again (ABCD-DBCA for four).
   */
  lemma WorstGapIsReached(totalUsers: nat, songsPerUser: nat)
    requires totalUsers >= 1 && songsPerUser >= 2
    ensures 2 * totalUsers - 1 < totalUsers * songsPerUser
    ensures var o := FairOwners(totalUsers, songsPerUser, WorstGapDraws(totalUsers, songsPerUser));
      && o[0] == 0 && o[2 * totalUsers - 1] == 0
      && forall r :: 0 < r < 2 * totalUsers - 1 ==> o[r] != 0
  {
    var n := totalUsers;
    var kss := WorstGapDraws(n, songsPerUser);
    var owners := Owners(n, songsPerUser);
    var o := FairOwners(n, songsPerUser, kss);
    MulMonotone(2, songsPerUser, n);
    FairOrderWindow(owners, n, songsPerUser, kss, 0);
    FairOrderWindow(owners, n, songsPerUser, kss, 1);
    RoundOfOwners(n, songsPerUser, 0);
    RoundOfOwners(n, songsPerUser, 1);
    StayDrawsKeepOrder(Iota(n), n);
    SwapEndsDrawsSwapEnds(Iota(n));
    var first := Window(o, n, 0);
    var second := Window(o, n, 1);
    assert first == Iota(n);
    assert second == Swap(Iota(n), n - 1, 0);
    forall r | 0 < r < 2 * n - 1 ensures o[r] != 0 {
      if r < n {
        assert o[r] == first[r];
      } else {
        assert o[r] == second[r - n];
      }
    }
    assert o[0] == first[0];
    assert o[2 * n - 1] == second[n - 1];
  }

  /** With a single contributor every item is theirs, so three in a row cannot be avoided. */
  lemma OneContributorOwnsAll(songsPerUser: nat, kss: seq<seq<nat>>, p: nat)
    requires songsPerUser >= 1
    requires ValidSectionDraws(kss, songsPerUser, 1)
    requires p < songsPerUser
    ensures FairOwners(1, songsPerUser, kss)[p] == 0
  {
    OnePerContributorPerWindow(1, songsPerUser, kss, p);
  }
}
