/**
 * Round-robin distribution (ABC...ABC... order), the rearrangement the
 * pipeline applies after the per-contributor shuffle.
 */
module RoundRobin {
  import opened Permutations
  import opened Arithmetic

  /**
   * The index that the distribution loop writes source item `i` to:
   * `U + N * S` with `U = i / songsPerUser` and `S = i % songsPerUser`.
   */
  function Destination(i: nat, songsPerUser: nat, totalUsers: nat): nat
    requires songsPerUser >= 1
  {
    i / songsPerUser + totalUsers * (i % songsPerUser)
  }

  /** The source item that ends up at position `p`: item `p / N` of contributor `p % N`. */
  function Source(p: nat, songsPerUser: nat, totalUsers: nat): nat
    requires totalUsers >= 1
  {
    (p % totalUsers) * songsPerUser + p / totalUsers
  }

  lemma SourceInRange(p: nat, songsPerUser: nat, totalUsers: nat)
    requires totalUsers >= 1 && p < totalUsers * songsPerUser
    ensures Source(p, songsPerUser, totalUsers) < totalUsers * songsPerUser
    ensures Source(p, songsPerUser, totalUsers) / songsPerUser == p % totalUsers
    ensures Source(p, songsPerUser, totalUsers) % songsPerUser == p / totalUsers
  {
    var u, w := p % totalUsers, p / totalUsers;
    assert p == w * totalUsers + u;
    if w >= songsPerUser { MulMonotone(songsPerUser, w, totalUsers); }
    DivModOf(u, songsPerUser, w);
    MulMonotone(u + 1, totalUsers, songsPerUser);
  }

  /** `Destination` and `Source` are inverse bijections of `[0, totalUsers * songsPerUser)`. */
  lemma DestinationInverse(i: nat, songsPerUser: nat, totalUsers: nat)
    requires totalUsers >= 1 && songsPerUser >= 1 && i < totalUsers * songsPerUser
    ensures Destination(i, songsPerUser, totalUsers) < totalUsers * songsPerUser
    ensures Source(Destination(i, songsPerUser, totalUsers), songsPerUser, totalUsers) == i
  {
    var u, w := i / songsPerUser, i % songsPerUser;
    assert i == u * songsPerUser + w;
    if u >= totalUsers { MulMonotone(totalUsers, u, songsPerUser); }
    DivModOf(w, totalUsers, u);
    MulMonotone(w + 1, songsPerUser, totalUsers);
  }

  lemma SourceInverse(p: nat, songsPerUser: nat, totalUsers: nat)
    requires totalUsers >= 1 && songsPerUser >= 1 && p < totalUsers * songsPerUser
    ensures Destination(Source(p, songsPerUser, totalUsers), songsPerUser, totalUsers) == p
  {
    SourceInRange(p, songsPerUser, totalUsers);
  }

  /**
   * The distributed order, defined position by position: position `p` holds
   * item `p / N` of contributor `p % N`, where the input is the concatenation
   * of `N` lists of `|s| / N` items each.
   */
  function Distributed<T>(s: seq<T>, totalUsers: nat): (r: seq<T>)
    requires totalUsers >= 1 && |s| % totalUsers == 0
    ensures |r| == |s|
  {
    var songsPerUser := |s| / totalUsers;
    seq(|s|, p requires 0 <= p < |s| =>
      SourceInRange(p, songsPerUser, totalUsers);
      s[Source(p, songsPerUser, totalUsers)])
  }

  /** The distribution loop's own formula: source item `i` lands at `Destination(i)`. */
  lemma DistributedAt<T>(s: seq<T>, totalUsers: nat, i: nat)
    requires totalUsers >= 1 && |s| % totalUsers == 0 && i < |s|
    ensures Destination(i, |s| / totalUsers, totalUsers) < |s|
    ensures Distributed(s, totalUsers)[Destination(i, |s| / totalUsers, totalUsers)] == s[i]
  {
    var songsPerUser := |s| / totalUsers;
    ExactQuotient(|s|, totalUsers);
    DestinationInverse(i, songsPerUser, totalUsers);
  }

  /**
   * The state of the distribution loop after it has placed source items
   * `0 .. i - 1`: every position whose source item is among them holds it.
   */
  ghost predicate PlacedBelow<T>(out: seq<T>, s: seq<T>, totalUsers: nat, songsPerUser: nat, i: nat)
    requires totalUsers >= 1
  {
    && |out| == |s|
    && forall p :: 0 <= p < |out| && Source(p, songsPerUser, totalUsers) < i ==>
         Source(p, songsPerUser, totalUsers) < |s| && out[p] == s[Source(p, songsPerUser, totalUsers)]
  }

  /** Writing source item `i` to `Destination(i)` extends the placed items by one. */
  lemma PlaceNext<T>(out: seq<T>, s: seq<T>, totalUsers: nat, songsPerUser: nat, i: nat)
    requires totalUsers >= 1 && songsPerUser >= 1 && |s| == totalUsers * songsPerUser && i < |s|
    requires PlacedBelow(out, s, totalUsers, songsPerUser, i)
    ensures Destination(i, songsPerUser, totalUsers) < |s|
    ensures PlacedBelow(out[Destination(i, songsPerUser, totalUsers) := s[i]], s, totalUsers, songsPerUser, i + 1)
  {
    DestinationInverse(i, songsPerUser, totalUsers);
    var d := Destination(i, songsPerUser, totalUsers);
    var out' := out[d := s[i]];
    forall p | 0 <= p < |out'| && Source(p, songsPerUser, totalUsers) < i + 1
      ensures Source(p, songsPerUser, totalUsers) < |s| && out'[p] == s[Source(p, songsPerUser, totalUsers)]
    {
      SourceInverse(p, songsPerUser, totalUsers);
    }
  }

  /** Once every source item is placed, the loop's output is the distributed order. */
  lemma PlacedAllIsDistributed<T>(out: seq<T>, s: seq<T>, totalUsers: nat)
    requires totalUsers >= 1 && |s| % totalUsers == 0
    requires PlacedBelow(out, s, totalUsers, |s| / totalUsers, |s|)
    ensures out == Distributed(s, totalUsers)
  {
    var songsPerUser := |s| / totalUsers;
    ExactQuotient(|s|, totalUsers);
    forall p | 0 <= p < |s| ensures out[p] == Distributed(s, totalUsers)[p] {
      SourceInRange(p, songsPerUser, totalUsers);
    }
  }

  /** Window `w` of the distributed order holds item `w` of every contributor, in contributor order. */
  lemma DistributedRoundRobin<T>(s: seq<T>, totalUsers: nat, w: nat, u: nat)
    requires totalUsers >= 1 && |s| % totalUsers == 0
    requires w < |s| / totalUsers && u < totalUsers
    ensures w * totalUsers + u < |s| && u * (|s| / totalUsers) + w < |s|
    ensures Distributed(s, totalUsers)[w * totalUsers + u] == s[u * (|s| / totalUsers) + w]
  {
    var songsPerUser := |s| / totalUsers;
    ExactQuotient(|s|, totalUsers);
    MulMonotone(w + 1, songsPerUser, totalUsers);
    var p := w * totalUsers + u;
    assert p < |s|;
    DivModOf(w, totalUsers, u);
    assert Source(p, songsPerUser, totalUsers) == u * songsPerUser + w;
    MulMonotone(u + 1, totalUsers, songsPerUser);
  }

  /** Distribution neither adds, drops nor duplicates an item. */
  lemma DistributedIsPermutation<T>(s: seq<T>, totalUsers: nat)
    requires totalUsers >= 1 && |s| % totalUsers == 0
    ensures multiset(Distributed(s, totalUsers)) == multiset(s)
  {
    var songsPerUser := |s| / totalUsers;
    var d := Distributed(s, totalUsers);
    var f := (p: int) => if 0 <= p then Source(p, songsPerUser, totalUsers) else 0;
    ExactQuotient(|s|, totalUsers);
    forall p | 0 <= p < |d| ensures 0 <= f(p) < |s| && s[f(p)] == d[p] {
      SourceInRange(p, songsPerUser, totalUsers);
    }
    forall p, q | 0 <= p < q < |d| ensures f(p) != f(q) {
      SourceInverse(p, songsPerUser, totalUsers);
      SourceInverse(q, songsPerUser, totalUsers);
    }
    MovedByIsPermutation(d, s, f);
  }

  lemma DistributedMap<T, U>(f: T -> U, s: seq<T>, totalUsers: nat)
    requires totalUsers >= 1 && |s| % totalUsers == 0
    ensures Distributed(Map(f, s), totalUsers) == Map(f, Distributed(s, totalUsers))
  {
    var songsPerUser := |s| / totalUsers;
    ExactQuotient(|s|, totalUsers);
    forall p | 0 <= p < |s|
      ensures Distributed(Map(f, s), totalUsers)[p] == Map(f, Distributed(s, totalUsers))[p]
    {
      SourceInRange(p, songsPerUser, totalUsers);
    }
  }

  /** Three contributors with two items each: `[a1,a2,b1,b2,c1,c2]` becomes `[a1,b1,c1,a2,b2,c2]`. */
  lemma DistributedExample<T>(a1: T, a2: T, b1: T, b2: T, c1: T, c2: T)
    ensures Distributed([a1, a2, b1, b2, c1, c2], 3) == [a1, b1, c1, a2, b2, c2]
  {
    var s := [a1, a2, b1, b2, c1, c2];
    forall w, u | 0 <= w < 2 && 0 <= u < 3
      ensures Distributed(s, 3)[w * 3 + u] == s[u * 2 + w]
    {
      DistributedRoundRobin(s, 3, w, u);
    }
  }
}
