/** Candidate ranking: an in-place stable sort by score followed by a three-tier partition. */
module Ranking {
  import opened RedisKeys

  datatype Candidate = Candidate(userId: Id, matchScore: real, poolScore: real)

  datatype PeerSets = PeerSets(known: set<Id>, skipped: set<Id>)

  const NO_PEERS := PeerSets({}, {})

  /** The comparator handed to the array sort: negative when `a` belongs before `b`. */
  function Compare(a: Candidate, b: Candidate): real {
    if a.matchScore != b.matchScore then b.matchScore - a.matchScore
    else b.poolScore - a.poolScore
  }

  // ---------- what the ranking means ----------

  /** Pairing priority: 0 for a fresh candidate, 1 for a known peer, 2 for an explicit skip. */
  function Tier(c: Candidate, peers: PeerSets): nat {
    if c.userId in peers.skipped then 2
    else if c.userId in peers.known then 1
    else 0
  }

  /** `a` outranks `b`: lower tier, then higher match score, then higher pool score. */
  predicate Outranks(a: Candidate, b: Candidate, peers: PeerSets) {
    || Tier(a, peers) < Tier(b, peers)
    || (Tier(a, peers) == Tier(b, peers)
        && (a.matchScore > b.matchScore || (a.matchScore == b.matchScore && a.poolScore > b.poolScore)))
  }

  predicate Tied(a: Candidate, b: Candidate, peers: PeerSets) {
    !Outranks(a, b, peers) && !Outranks(b, a, peers)
  }

  ghost predicate Ranked(s: seq<Candidate>, peers: PeerSets) {
    forall i, j | 0 <= i < j < |s| :: !Outranks(s[j], s[i], peers)
  }

  /** The elements of `s` that tie with `c`, in the order in which `s` holds them. */
  function TiedWith(s: seq<Candidate>, c: Candidate, peers: PeerSets): seq<Candidate> {
    if s == [] then []
    else (if Tied(s[0], c, peers) then [s[0]] else []) + TiedWith(s[1..], c, peers)
  }

  /** `r` is `s` in rank order, with every group of ties left in its original order. */
  ghost predicate StableSortOf(r: seq<Candidate>, s: seq<Candidate>, peers: PeerSets) {
    Ranked(r, peers) && forall c: Candidate :: TiedWith(r, c, peers) == TiedWith(s, c, peers)
  }

  predicate IsFresh(c: Candidate, peers: PeerSets) {
    c.userId !in peers.known && c.userId !in peers.skipped
  }

  // ---------- how the service computes it ----------

  function InsertFromRight(r: seq<Candidate>, x: Candidate): seq<Candidate> {
    if r == [] || !(Compare(x, r[|r| - 1]) < 0.0) then r + [x]
    else InsertFromRight(r[..|r| - 1], x) + [r[|r| - 1]]
  }

  function SortDescending(s: seq<Candidate>): (r: seq<Candidate>)
    ensures |r| == |s|
  {
    if s == [] then []
    else
      InsertLength(SortDescending(s[..|s| - 1]), s[|s| - 1]);
      InsertFromRight(SortDescending(s[..|s| - 1]), s[|s| - 1])
  }

  function OfTier(s: seq<Candidate>, tier: nat, peers: PeerSets): seq<Candidate> {
    if s == [] then []
    else (if Tier(s[0], peers) == tier then [s[0]] else []) + OfTier(s[1..], tier, peers)
  }

  function Partition(s: seq<Candidate>, peers: PeerSets): seq<Candidate> {
    OfTier(s, 0, peers) + OfTier(s, 1, peers) + OfTier(s, 2, peers)
  }

  function Rank(s: seq<Candidate>, peers: PeerSets): seq<Candidate> {
    Partition(SortDescending(s), peers)
  }

  /** Stable in-place sort, as section 23.1.3.30 of ECMA-262 (2023) requires of `Array.prototype.sort`. */
  method SortScoredCandidatesDescending(candidates: array<Candidate>)
    modifies candidates
    ensures candidates[..] == SortDescending(old(candidates[..]))
  {
    ghost var s := candidates[..];
    ghost var r, rest := [], s;
    var i := 0;
    assert s[..0] == [];
    while i < candidates.Length
      invariant 0 <= i <= candidates.Length == |s|
      invariant r == SortDescending(s[..i]) && |r| == i && rest == s[i..]
      invariant candidates[..] == r + rest
    {
      SortNext(s, i);
      InsertAt(candidates, i, r, s[i], s[i + 1..]);
      r, rest, i := InsertFromRight(r, s[i]), s[i + 1..], i + 1;
    }
    assert s[..i] == s && rest == [];
  }

  /** What is left to sort after one more element. */
  lemma SortNext(s: seq<Candidate>, i: nat)
    requires i < |s|
    ensures SortDescending(s[..i + 1]) == InsertFromRight(SortDescending(s[..i]), s[i])
    ensures |SortDescending(s[..i + 1])| == i + 1 && s[i..] == [s[i]] + s[i + 1..]
  {
    assert s[..i + 1][..i] == s[..i] && s[..i + 1][i] == s[i];
  }

  /** One insertion step: moves the element at `i` left past every element that it outranks. */
  method InsertAt(a: array<Candidate>, i: nat, ghost r: seq<Candidate>, ghost x: Candidate, ghost rest: seq<Candidate>)
    requires |r| == i && a[..] == r + ([x] + rest)
    modifies a
    ensures a[..] == InsertFromRight(r, x) + rest
  {
    var j := i;
    assert r[..i] == r && r[i..] == [];
    while j > 0 && Compare(a[j], a[j - 1]) < 0.0
      invariant 0 <= j <= i < a.Length
      invariant a[..] == r[..j] + [x] + r[j..] + rest
      invariant InsertFromRight(r, x) == InsertFromRight(r[..j], x) + r[j..]
    {
      assert a[j] == a[..][j] == x && a[j - 1] == a[..][j - 1] == r[j - 1];
      InsertPasses(r, x, j);
      SwapLeft(a, j);
      ShiftLeft(r, x, j, rest);
      j := j - 1;
    }
    if j > 0 {
      assert a[j] == a[..][j] == x && a[j - 1] == a[..][j - 1] == r[j - 1];
    }
    assert InsertFromRight(r[..j], x) == r[..j] + [x];
  }

  method SwapLeft(a: array<Candidate>, j: nat)
    requires 0 < j < a.Length
    modifies a
    ensures a[..] == old(a[..])[j := old(a[j - 1])][j - 1 := old(a[j])]
  {
    a[j], a[j - 1] := a[j - 1], a[j];
  }

  /** Swapping the inserted element with its left neighbour moves it one place left. */
  lemma ShiftLeft(r: seq<Candidate>, x: Candidate, j: nat, rest: seq<Candidate>)
    requires 0 < j <= |r|
    ensures (r[..j] + [x] + r[j..] + rest)[j := r[j - 1]][j - 1 := x] == r[..j - 1] + [x] + r[j - 1..] + rest
  {
  }

  lemma InsertPasses(r: seq<Candidate>, x: Candidate, j: nat)
    requires 0 < j <= |r| && Compare(x, r[j - 1]) < 0.0
    ensures InsertFromRight(r[..j], x) + r[j..] == InsertFromRight(r[..j - 1], x) + r[j - 1..]
  {
    assert r[..j][..j - 1] == r[..j - 1];
    assert [r[j - 1]] + r[j..] == r[j - 1..];
  }

  method PartitionDeprioritizedCandidates(candidates: seq<Candidate>, peers: PeerSets) returns (r: seq<Candidate>)
    ensures r == Partition(candidates, peers)
  {
    if peers.known == {} && peers.skipped == {} {
      AllFresh(candidates, peers);
      return candidates;
    }
    var preferred, known, skipped := [], [], [];
    for k := 0 to |candidates|
      invariant preferred == OfTier(candidates[..k], 0, peers)
      invariant known == OfTier(candidates[..k], 1, peers)
      invariant skipped == OfTier(candidates[..k], 2, peers)
    {
      var row := candidates[k];
      assert candidates[..k + 1] == candidates[..k] + [row];
      OfTierAppend(candidates[..k], row, 0, peers);
      OfTierAppend(candidates[..k], row, 1, peers);
      OfTierAppend(candidates[..k], row, 2, peers);
      if row.userId in peers.skipped {
        skipped := skipped + [row];
      } else if row.userId in peers.known {
        known := known + [row];
      } else {
        preferred := preferred + [row];
      }
    }
    assert candidates[..|candidates|] == candidates;
    return preferred + known + skipped;
  }

  /** Sorts a fresh copy, so the caller's array is untouched, and then partitions it. */
  method RankCandidatesForPairing(candidates: array<Candidate>, peers: PeerSets) returns (r: seq<Candidate>)
    ensures r == Rank(candidates[..], peers)
    ensures StableSortOf(r, candidates[..], peers)
    ensures multiset(r) == multiset(candidates[..])
  {
    var sorted :=
      new Candidate[candidates.Length](i requires 0 <= i < candidates.Length reads candidates => candidates[i]);
    assert sorted[..] == candidates[..];
    SortScoredCandidatesDescending(sorted);
    r := PartitionDeprioritizedCandidates(sorted[..], peers);
    RankIsStableSort(candidates[..], peers);
    StableSortIsPermutation(r, candidates[..], peers);
  }

  // ---------- proofs ----------

  lemma {:induction false} InsertLength(r: seq<Candidate>, x: Candidate)
    ensures |InsertFromRight(r, x)| == |r| + 1
  {
    if r != [] {
      InsertLength(r[..|r| - 1], x);
    }
  }

  lemma {:induction false} TiedWithConcat(a: seq<Candidate>, b: seq<Candidate>, c: Candidate, peers: PeerSets)
    ensures TiedWith(a + b, c, peers) == TiedWith(a, c, peers) + TiedWith(b, c, peers)
  {
    if a == [] {
      assert a + b == b;
    } else {
      assert (a + b)[0] == a[0] && (a + b)[1..] == a[1..] + b;
      TiedWithConcat(a[1..], b, c, peers);
    }
  }

  lemma {:induction false} InsertKeepsTies(r: seq<Candidate>, x: Candidate, c: Candidate, peers: PeerSets)
    ensures TiedWith(InsertFromRight(r, x), c, peers) == TiedWith(r, c, peers) + TiedWith([x], c, peers)
  {
    if r == [] || !(Compare(x, r[|r| - 1]) < 0.0) {
      TiedWithConcat(r, [x], c, peers);
    } else {
      var front, y := r[..|r| - 1], r[|r| - 1];
      InsertKeepsTies(front, x, c, peers);
      TiedWithConcat(InsertFromRight(front, x), [y], c, peers);
      assert r == front + [y];
      TiedWithConcat(front, [y], c, peers);
      assert !(Tied(x, c, peers) && Tied(y, c, peers));
    }
  }

  lemma {:induction false} SortKeepsTies(s: seq<Candidate>, c: Candidate, peers: PeerSets)
    ensures TiedWith(SortDescending(s), c, peers) == TiedWith(s, c, peers)
  {
    if s != [] {
      var front, x := s[..|s| - 1], s[|s| - 1];
      SortKeepsTies(front, c, peers);
      InsertKeepsTies(SortDescending(front), x, c, peers);
      assert s == front + [x];
      TiedWithConcat(front, [x], c, peers);
    }
  }

  lemma {:induction false} InsertElements(r: seq<Candidate>, x: Candidate)
    ensures forall y :: y in InsertFromRight(r, x) <==> y == x || y in r
  {
    if r != [] {
      InsertElements(r[..|r| - 1], x);
      assert r == r[..|r| - 1] + [r[|r| - 1]];
    }
  }

  lemma {:induction false} InsertKeepsOrder(r: seq<Candidate>, x: Candidate)
    requires Ranked(r, NO_PEERS)
    ensures Ranked(InsertFromRight(r, x), NO_PEERS)
  {
    if r != [] {
      var front, y := r[..|r| - 1], r[|r| - 1];
      if Compare(x, y) < 0.0 {
        InsertKeepsOrder(front, x);
        InsertElements(front, x);
        var f := InsertFromRight(front, x);
        forall i | 0 <= i < |f|
          ensures !Outranks(y, f[i], NO_PEERS)
        {
          assert f[i] in f;
        }
      } else {
        forall i | 0 <= i < |r|
          ensures !Outranks(x, r[i], NO_PEERS)
        {
          assert i == |r| - 1 || !Outranks(r[|r| - 1], r[i], NO_PEERS);
        }
      }
    }
  }

  lemma {:induction false} SortIsRanked(s: seq<Candidate>)
    ensures Ranked(SortDescending(s), NO_PEERS)
  {
    if s != [] {
      SortIsRanked(s[..|s| - 1]);
      InsertKeepsOrder(SortDescending(s[..|s| - 1]), s[|s| - 1]);
    }
  }

  lemma SortIsStable(s: seq<Candidate>)
    ensures StableSortOf(SortDescending(s), s, NO_PEERS)
  {
    SortIsRanked(s);
    forall c: Candidate
      ensures TiedWith(SortDescending(s), c, NO_PEERS) == TiedWith(s, c, NO_PEERS)
    {
      SortKeepsTies(s, c, NO_PEERS);
    }
  }

  lemma {:induction false} OfTierAppend(s: seq<Candidate>, x: Candidate, tier: nat, peers: PeerSets)
    ensures OfTier(s + [x], tier, peers) == OfTier(s, tier, peers) + (if Tier(x, peers) == tier then [x] else [])
  {
    if s == [] {
      assert s + [x] == [x];
    } else {
      assert (s + [x])[0] == s[0] && (s + [x])[1..] == s[1..] + [x];
      OfTierAppend(s[1..], x, tier, peers);
    }
  }

  lemma {:induction false} AllFresh(s: seq<Candidate>, peers: PeerSets)
    requires peers.known == {} && peers.skipped == {}
    ensures OfTier(s, 0, peers) == s && OfTier(s, 1, peers) == [] && OfTier(s, 2, peers) == []
  {
    if s != [] {
      AllFresh(s[1..], peers);
    }
  }

  lemma {:induction false} OfTierElements(s: seq<Candidate>, tier: nat, peers: PeerSets)
    ensures forall x :: x in OfTier(s, tier, peers) <==> x in s && Tier(x, peers) == tier
  {
    if s != [] {
      OfTierElements(s[1..], tier, peers);
      assert s == [s[0]] + s[1..];
    }
  }

  /** Within one tier the score order survives. */
  lemma {:induction false} OfTierRanked(s: seq<Candidate>, tier: nat, peers: PeerSets)
    requires Ranked(s, NO_PEERS)
    ensures Ranked(OfTier(s, tier, peers), peers)
  {
    if s != [] {
      OfTierRanked(s[1..], tier, peers);
      OfTierElements(s[1..], tier, peers);
      var rest := OfTier(s[1..], tier, peers);
      forall i | 0 <= i < |rest| && Tier(s[0], peers) == tier
        ensures !Outranks(rest[i], s[0], peers)
      {
        assert rest[i] in rest;
        var k :| 0 <= k < |s[1..]| && s[1..][k] == rest[i];
        assert !Outranks(s[k + 1], s[0], NO_PEERS);
      }
    }
  }

  lemma {:induction false} OfTierTies(s: seq<Candidate>, tier: nat, c: Candidate, peers: PeerSets)
    ensures TiedWith(OfTier(s, tier, peers), c, peers) == if Tier(c, peers) == tier then TiedWith(s, c, peers) else []
  {
    if s != [] {
      OfTierTies(s[1..], tier, c, peers);
      if Tier(s[0], peers) == tier {
        var rest := OfTier(s[1..], tier, peers);
        assert OfTier(s, tier, peers)[1..] == rest;
      } else {
        assert OfTier(s, tier, peers) == OfTier(s[1..], tier, peers);
        assert Tier(c, peers) == tier ==> !Tied(s[0], c, peers);
      }
    }
  }

  lemma RankIsRanked(s: seq<Candidate>, peers: PeerSets)
    ensures Ranked(Rank(s, peers), peers)
  {
    var t := SortDescending(s);
    SortIsRanked(s);
    OfTierRanked(t, 0, peers);
    OfTierRanked(t, 1, peers);
    OfTierRanked(t, 2, peers);
    OfTierElements(t, 0, peers);
    OfTierElements(t, 1, peers);
    OfTierElements(t, 2, peers);
    ConcatRanked(OfTier(t, 0, peers), OfTier(t, 1, peers), peers);
    ConcatRanked(OfTier(t, 0, peers) + OfTier(t, 1, peers), OfTier(t, 2, peers), peers);
  }

  lemma RankKeepsTies(s: seq<Candidate>, c: Candidate, peers: PeerSets)
    ensures TiedWith(Rank(s, peers), c, peers) == TiedWith(s, c, peers)
  {
    var t := SortDescending(s);
    SortKeepsTies(s, c, peers);
    PartitionKeepsTies(t, c, peers);
  }

  lemma PartitionKeepsTies(t: seq<Candidate>, c: Candidate, peers: PeerSets)
    ensures TiedWith(Partition(t, peers), c, peers) == TiedWith(t, c, peers)
  {
    var p0, p1, p2 := OfTier(t, 0, peers), OfTier(t, 1, peers), OfTier(t, 2, peers);
    TiedWithConcat(p0 + p1, p2, c, peers);
    TiedWithConcat(p0, p1, c, peers);
    OfTierTies(t, 0, c, peers);
    OfTierTies(t, 1, c, peers);
    OfTierTies(t, 2, c, peers);
  }

  /** The sort and the partition together are one stable sort by (tier, match score, pool score). */
  lemma RankIsStableSort(s: seq<Candidate>, peers: PeerSets)
    ensures StableSortOf(Rank(s, peers), s, peers)
  {
    RankIsRanked(s, peers);
    forall c: Candidate
      ensures TiedWith(Rank(s, peers), c, peers) == TiedWith(s, c, peers)
    {
      RankKeepsTies(s, c, peers);
    }
  }

  lemma ConcatRanked(a: seq<Candidate>, b: seq<Candidate>, peers: PeerSets)
    requires Ranked(a, peers) && Ranked(b, peers)
    requires forall x, y :: x in a && y in b ==> Tier(x, peers) < Tier(y, peers)
    ensures Ranked(a + b, peers)
  {
    var s := a + b;
    forall i, j | 0 <= i < j < |s|
      ensures !Outranks(s[j], s[i], peers)
    {
      if i < |a| && |a| <= j {
        assert s[i] in a && s[j] in b;
      }
    }
  }

  lemma {:induction false} TiedWithFinds(s: seq<Candidate>, k: nat, c: Candidate, peers: PeerSets)
    requires k < |s| && Tied(s[k], c, peers)
    ensures TiedWith(s, c, peers) != []
  {
    if k > 0 {
      TiedWithFinds(s[1..], k - 1, c, peers);
    }
  }

  lemma {:induction false} TiedWithHead(s: seq<Candidate>, c: Candidate, peers: PeerSets) returns (k: nat)
    requires TiedWith(s, c, peers) != []
    ensures k < |s| && s[k] == TiedWith(s, c, peers)[0] && Tied(s[k], c, peers)
  {
    if Tied(s[0], c, peers) {
      k := 0;
    } else {
      k := TiedWithHead(s[1..], c, peers);
      k := k + 1;
    }
  }

  /** The ranking is fully determined: any two stable sorts of one list are the same list. */
  lemma {:induction false} StableSortUnique(r: seq<Candidate>, q: seq<Candidate>, peers: PeerSets)
    requires Ranked(r, peers) && StableSortOf(q, r, peers)
    ensures r == q
  {
    if q != [] {
      TiedWithFinds(q, 0, q[0], peers);
      assert TiedWith(r, q[0], peers) == TiedWith(q, q[0], peers);
    }
    if r != [] {
      var x := r[0];
      TiedWithFinds(r, 0, x, peers);
      assert TiedWith(r, x, peers)[0] == x;
      var k := TiedWithHead(q, x, peers);
      var y := q[0];
      TiedWithFinds(q, 0, y, peers);
      var m := TiedWithHead(r, y, peers);
      assert q[k] == x;
      assert k == 0 || !Outranks(q[k], q[0], peers);
      assert m == 0 || !Outranks(r[m], r[0], peers);
      assert Tied(y, x, peers);
      assert y == x;
      forall c: Candidate
        ensures TiedWith(q[1..], c, peers) == TiedWith(r[1..], c, peers)
      {
        var head := if Tied(x, c, peers) then [x] else [];
        assert TiedWith(q, c, peers) == TiedWith(r, c, peers);
        assert TiedWith(q[1..], c, peers) == (head + TiedWith(q[1..], c, peers))[|head|..];
        assert TiedWith(r[1..], c, peers) == (head + TiedWith(r[1..], c, peers))[|head|..];
      }
      StableSortUnique(r[1..], q[1..], peers);
      assert r == [r[0]] + r[1..] && q == [q[0]] + q[1..];
    }
  }

  lemma {:induction false} TiedWithCounts(s: seq<Candidate>, c: Candidate, peers: PeerSets)
    ensures multiset(TiedWith(s, c, peers))[c] == multiset(s)[c]
  {
    if s != [] {
      TiedWithCounts(s[1..], c, peers);
      assert s == [s[0]] + s[1..];
    }
  }

  lemma StableSortIsPermutation(r: seq<Candidate>, s: seq<Candidate>, peers: PeerSets)
    requires StableSortOf(r, s, peers)
    ensures multiset(r) == multiset(s)
  {
    forall c: Candidate
      ensures multiset(r)[c] == multiset(s)[c]
    {
      TiedWithCounts(r, c, peers);
      TiedWithCounts(s, c, peers);
      assert TiedWith(r, c, peers) == TiedWith(s, c, peers);
    }
  }

  /**
   * Whatever test a candidate has to pass, the first one in rank order that passes
   * is outranked by no other that passes.
   */
  lemma FirstAcceptedIsBest(s: seq<Candidate>, peers: PeerSets, accepted: Candidate -> bool, k: nat, d: Candidate)
    requires k < |Rank(s, peers)| && accepted(Rank(s, peers)[k])
    requires forall j :: 0 <= j < k ==> !accepted(Rank(s, peers)[j])
    requires d in s && accepted(d)
    ensures !Outranks(d, Rank(s, peers)[k], peers)
  {
    var r := Rank(s, peers);
    RankIsStableSort(s, peers);
    StableSortIsPermutation(r, s, peers);
    assert d in multiset(s);
    assert d in multiset(r);
    var m :| 0 <= m < |r| && r[m] == d;
  }

  /**
   * In the list that the service tries, fresh candidates come first, then known peers, and skipped ones last,
   * known or not; among candidates of one kind the higher match score comes first, then the higher pool score.
   */
  lemma RankedOrder(s: seq<Candidate>, peers: PeerSets, i: nat, j: nat)
    requires i < j < |Rank(s, peers)|
    ensures var a, b := Rank(s, peers)[i], Rank(s, peers)[j];
      && (a.userId in peers.skipped ==> b.userId in peers.skipped)
      && (IsFresh(b, peers) ==> IsFresh(a, peers))
      && ((a.userId in peers.skipped && b.userId in peers.skipped) || (IsFresh(a, peers) && IsFresh(b, peers))
          || (a.userId !in peers.skipped && b.userId !in peers.skipped && !IsFresh(a, peers) && !IsFresh(b, peers)) ==>
            a.matchScore > b.matchScore || (a.matchScore == b.matchScore && a.poolScore >= b.poolScore))
  {
    RankIsStableSort(s, peers);
    assert !Outranks(Rank(s, peers)[j], Rank(s, peers)[i], peers);
  }
}
