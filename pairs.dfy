/**
 * `discardPairs` and `findPairs`: counting cards by rank, ignoring the joker,
 * and removing or listing pairs.
 */
module Pairs {
  import opened Wrappers
  import opened Cards

  /** The number of non-joker cards of rank `r` in `h` (the joker is told apart by its suit). */
  function RankCount(h: seq<Card>, r: Rank): nat {
    if h == [] then 0
    else RankCount(h[..|h| - 1], r) + (if !IsJoker(h[|h| - 1]) && h[|h| - 1].rank == r then 1 else 0)
  }

  /** The number of cards of `h` with the joker suit. */
  function JokerCount(h: seq<Card>): nat {
    if h == [] then 0 else JokerCount(h[..|h| - 1]) + (if IsJoker(h[|h| - 1]) then 1 else 0)
  }

  /** A counting dictionary read the way the source reads it: a missing key counts as zero. */
  function Get(m: map<Rank, nat>, r: Rank): nat {
    if r in m then m[r] else 0
  }

  lemma RankCountSnoc(h: seq<Card>, c: Card, r: Rank)
    ensures RankCount(h + [c], r) == RankCount(h, r) + (if !IsJoker(c) && c.rank == r then 1 else 0)
  {
    assert (h + [c])[..|h|] == h;
  }

  lemma JokerCountSnoc(h: seq<Card>, c: Card)
    ensures JokerCount(h + [c]) == JokerCount(h) + (if IsJoker(c) then 1 else 0)
  {
    assert (h + [c])[..|h|] == h;
  }

  lemma RankCountTake(h: seq<Card>, i: nat, r: Rank)
    requires i < |h|
    ensures RankCount(h[..i + 1], r) == RankCount(h[..i], r) + (if !IsJoker(h[i]) && h[i].rank == r then 1 else 0)
  {
    assert h[..i + 1][..i] == h[..i];
  }

  /** A non-joker card of rank `r` has one of the four suits. */
  lemma {:induction false} RankCountBySuits(h: seq<Card>, r: Rank)
    ensures RankCount(h, r) == multiset(h)[Card(Spades, r)] + multiset(h)[Card(Hearts, r)]
      + multiset(h)[Card(Diamonds, r)] + multiset(h)[Card(Clubs, r)]
  {
    if h != [] {
      var init, c := h[..|h| - 1], h[|h| - 1];
      RankCountBySuits(init, r);
      assert h == init + [c];
    }
  }

  /** A hand has a joker-suit card exactly when its joker count is positive. */
  lemma {:induction false} JokerCountPositive(h: seq<Card>)
    ensures JokerCount(h) > 0 <==> exists c :: c in h && IsJoker(c)
  {
    if h != [] {
      var init, c := h[..|h| - 1], h[|h| - 1];
      JokerCountPositive(init);
      assert h == init + [c];
    }
  }

  /** When the joker is the only joker-suit card a hand can hold, the joker count counts the joker. */
  lemma {:induction false} JokerCountOfJoker(h: seq<Card>)
    requires forall c :: c in h && IsJoker(c) ==> c == Joker
    ensures JokerCount(h) == multiset(h)[Joker]
  {
    if h != [] {
      var init, c := h[..|h| - 1], h[|h| - 1];
      assert h == init + [c];
      JokerCountOfJoker(init);
    }
  }

  // ---------------------------------------------------------------------------
  // discardPairs

  /**
   * Card `i` survives `discardPairs` unless it is one of the first two cards
   * of a rank that the hand holds at least twice. Jokers always survive.
   */
  predicate Kept(h: seq<Card>, i: nat)
    requires i < |h|
  {
    IsJoker(h[i]) || RankCount(h, h[i].rank) < 2 || RankCount(h[..i], h[i].rank) >= 2
  }

  /** The surviving cards among the first `k` cards of `h`, in their order. */
  function KeptPrefix(h: seq<Card>, k: nat): seq<Card>
    requires k <= |h|
  {
    if k == 0 then [] else KeptPrefix(h, k - 1) + (if Kept(h, k - 1) then [h[k - 1]] else [])
  }

  /** The hand `discardPairs` returns. */
  function Reduce(h: seq<Card>): seq<Card> {
    KeptPrefix(h, |h|)
  }

  /** The second loop of `discardPairs`: `used` counts the cards of each paired rank dropped so far. */
  method DropFirstPairs(hand: seq<Card>, rankCount: map<Rank, nat>) returns (newHand: seq<Card>)
    requires forall r :: Get(rankCount, r) == RankCount(hand, r)
    ensures newHand == Reduce(hand)
  {
    newHand := [];
    var used: map<Rank, nat> := map[];
    for i := 0 to |hand|
      invariant newHand == KeptPrefix(hand, i)
      invariant forall r :: Get(used, r) == if RankCount(hand, r) >= 2 then Min(RankCount(hand[..i], r), 2) else 0
    {
      var card := hand[i];
      forall r
        ensures RankCount(hand[..i + 1], r) == RankCount(hand[..i], r) + (if !IsJoker(card) && card.rank == r then 1 else 0)
      {
        RankCountTake(hand, i, r);
      }
      if IsJoker(card) {
        newHand := newHand + [card];
        continue;
      }
      if Get(rankCount, card.rank) >= 2 && Get(used, card.rank) < 2 {
        used := used[card.rank := Get(used, card.rank) + 1];
        if used[card.rank] <= 2 {
          continue;
        }
      }
      newHand := newHand + [card];
    }
  }

  /**
   * `discardPairs`: count the ranks (the same counting loop as `findPairs`),
   * then drop the first two cards of every rank held twice or more.
   */
  method DiscardPairs(hand: seq<Card>) returns (newHand: seq<Card>)
    ensures newHand == Reduce(hand)
  {
    var rankCount, _ := CountRanks(hand);
    newHand := DropFirstPairs(hand, rankCount);
  }

  /** `a` is `b` with some elements left out, the rest in their order. */
  predicate Subsequence(a: seq<Card>, b: seq<Card>)
    decreases |b|
  {
    if b == [] then a == []
    else
      (a != [] && a[|a| - 1] == b[|b| - 1] && Subsequence(a[..|a| - 1], b[..|b| - 1]))
      || Subsequence(a, b[..|b| - 1])
  }

  lemma {:induction false} KeptPrefixSubsequence(h: seq<Card>, k: nat)
    requires k <= |h|
    ensures Subsequence(KeptPrefix(h, k), h[..k])
  {
    if k > 0 {
      KeptPrefixSubsequence(h, k - 1);
      assert h[..k][..k - 1] == h[..k - 1];
      var a := KeptPrefix(h, k - 1);
      if Kept(h, k - 1) {
        assert KeptPrefix(h, k) == a + [h[k - 1]];
        assert (a + [h[k - 1]])[..|a|] == a;
      } else {
        assert KeptPrefix(h, k) == a;
      }
    }
  }

  /** The result of `discardPairs` is the hand with some cards removed, the rest in their order. */
  lemma ReduceSubsequence(h: seq<Card>)
    ensures Subsequence(Reduce(h), h)
  {
    KeptPrefixSubsequence(h, |h|);
    assert h[..|h|] == h;
  }

  lemma {:induction false} KeptPrefixJokers(h: seq<Card>, k: nat)
    requires k <= |h|
    ensures JokerCount(KeptPrefix(h, k)) == JokerCount(h[..k])
  {
    if k > 0 {
      KeptPrefixJokers(h, k - 1);
      assert h[..k] == h[..k - 1] + [h[k - 1]];
      JokerCountSnoc(h[..k - 1], h[k - 1]);
      if Kept(h, k - 1) {
        JokerCountSnoc(KeptPrefix(h, k - 1), h[k - 1]);
      } else {
        assert KeptPrefix(h, k) == KeptPrefix(h, k - 1);
      }
    }
  }

  /** Every joker survives `discardPairs`. */
  lemma ReduceKeepsJokers(h: seq<Card>)
    ensures JokerCount(Reduce(h)) == JokerCount(h)
  {
    KeptPrefixJokers(h, |h|);
    assert h[..|h|] == h;
  }

  /** How many cards of rank `r` the first `k` cards of `h` lose: up to two, and only when `h` holds at least two. */
  function Dropped(h: seq<Card>, k: nat, r: Rank): nat
    requires k <= |h|
  {
    if RankCount(h, r) >= 2 then Min(RankCount(h[..k], r), 2) else 0
  }

  /** One step of the scan: card `k - 1` is kept or dropped as `Kept` says. */
  lemma KeptPrefixRankCountStep(h: seq<Card>, k: nat, r: Rank)
    requires 0 < k <= |h|
    requires RankCount(KeptPrefix(h, k - 1), r) == RankCount(h[..k - 1], r) - Dropped(h, k - 1, r)
    ensures RankCount(KeptPrefix(h, k), r) == RankCount(h[..k], r) - Dropped(h, k, r)
  {
    var c := h[k - 1];
    var kept := KeptPrefix(h, k - 1);
    RankCountTake(h, k - 1, r);
    var matches := !IsJoker(c) && c.rank == r;
    if Kept(h, k - 1) {
      assert KeptPrefix(h, k) == kept + [c];
      RankCountSnoc(kept, c, r);
      assert matches ==> RankCount(h, r) < 2 || RankCount(h[..k - 1], r) >= 2;
    } else {
      assert KeptPrefix(h, k) == kept;
      assert matches ==> RankCount(h, r) >= 2 && RankCount(h[..k - 1], r) < 2;
    }
  }

  lemma {:induction false} KeptPrefixRankCount(h: seq<Card>, k: nat, r: Rank)
    requires k <= |h|
    ensures RankCount(KeptPrefix(h, k), r)
      == RankCount(h[..k], r) - (if RankCount(h, r) >= 2 then Min(RankCount(h[..k], r), 2) else 0)
  {
    if k == 0 {
      assert h[..0] == [];
    } else {
      KeptPrefixRankCount(h, k - 1, r);
      KeptPrefixRankCountStep(h, k, r);
    }
  }

  /**
   * For every rank held `c >= 2` times, exactly two cards go and `c - 2` stay;
   * a rank held fewer than two times is untouched. Four of a kind leaves a pair.
   */
  lemma ReduceRankCount(h: seq<Card>, r: Rank)
    ensures RankCount(Reduce(h), r) == if RankCount(h, r) >= 2 then RankCount(h, r) - 2 else RankCount(h, r)
  {
    KeptPrefixRankCount(h, |h|, r);
    assert h[..|h|] == h;
  }

  lemma {:induction false} KeptPrefixAll(h: seq<Card>, k: nat)
    requires k <= |h|
    requires forall r :: RankCount(h, r) < 2
    ensures KeptPrefix(h, k) == h[..k]
  {
    if k > 0 {
      KeptPrefixAll(h, k - 1);
      assert h[..k] == h[..k - 1] + [h[k - 1]];
    }
  }

  /** A hand without two cards of a rank comes back unchanged. */
  lemma ReduceNoPairs(h: seq<Card>)
    requires forall r :: RankCount(h, r) < 2
    ensures Reduce(h) == h
  {
    KeptPrefixAll(h, |h|);
    assert h[..|h|] == h;
  }

  /**
   * A second `discardPairs` changes nothing exactly when no rank is held four
   * or more times; four of a kind loses one pair per call.
   */
  lemma ReduceIdempotent(h: seq<Card>)
    ensures Reduce(Reduce(h)) == Reduce(h) <==> forall r :: RankCount(h, r) < 4
  {
    var g := Reduce(h);
    if forall r :: RankCount(h, r) < 4 {
      forall r
        ensures RankCount(g, r) < 2
      {
        ReduceRankCount(h, r);
      }
      ReduceNoPairs(g);
    } else {
      var r :| RankCount(h, r) >= 4;
      ReduceRankCount(h, r);
      ReduceRankCount(g, r);
      assert RankCount(Reduce(g), r) != RankCount(g, r);
    }
  }

  /** Four aces: a single `discardPairs` leaves two of them. */
  lemma FourOfAKind()
    ensures var h := [Card(Spades, Ace), Card(Hearts, Ace), Card(Diamonds, Ace), Card(Clubs, Ace)];
      Reduce(h) == h[2..] && Reduce(Reduce(h)) == []
  {
    var h := [Card(Spades, Ace), Card(Hearts, Ace), Card(Diamonds, Ace), Card(Clubs, Ace)];
    assert RankCount(h, Ace) == 4;
    assert h[..1] == [h[0]] && h[..2] == [h[0], h[1]] && h[..3] == [h[0], h[1], h[2]];
    assert RankCount(h[..2], Ace) == 2 && RankCount(h[..3], Ace) == 3;
    assert KeptPrefix(h, 2) == [];
    var g := [Card(Diamonds, Ace), Card(Clubs, Ace)];
    assert Reduce(h) == g;
    assert g[..1] == [g[0]];
    assert RankCount(g, Ace) == 2 && RankCount(g[..1], Ace) == 1;
    assert Reduce(g) == [];
  }

  // ---------------------------------------------------------------------------
  // Counting cards by rank

  /** All ranks a card can carry, each once. */
  const AllRanks: seq<Rank> := Ranks + [JokerRank]

  lemma AllRanksCount(r: Rank)
    ensures multiset(AllRanks)[r] == 1
  {
    RanksCount(r);
  }

  /** The total of `RankCount(h, r)` over the ranks `rs`. */
  function SumCounts(h: seq<Card>, rs: seq<Rank>): nat {
    if rs == [] then 0 else SumCounts(h, rs[..|rs| - 1]) + RankCount(h, rs[|rs| - 1])
  }

  /** How many of the ranks `rs` the hand holds at least twice. */
  function PairedIn(h: seq<Card>, rs: seq<Rank>): nat {
    if rs == [] then 0 else PairedIn(h, rs[..|rs| - 1]) + (if RankCount(h, rs[|rs| - 1]) >= 2 then 1 else 0)
  }

  /** The number of ranks of which `discardPairs` removes a pair from `h`. */
  function PairedRanks(h: seq<Card>): nat {
    PairedIn(h, AllRanks)
  }

  lemma {:induction false} SumCountsSnoc(h: seq<Card>, c: Card, rs: seq<Rank>)
    ensures SumCounts(h + [c], rs) == SumCounts(h, rs) + (if IsJoker(c) then 0 else multiset(rs)[c.rank])
  {
    if rs != [] {
      var init, last := rs[..|rs| - 1], rs[|rs| - 1];
      SumCountsSnoc(h, c, init);
      RankCountSnoc(h, c, last);
      SplitLast(rs);
    }
  }

  lemma {:induction false} SumCountsEmpty(rs: seq<Rank>)
    ensures SumCounts([], rs) == 0
  {
    if rs != [] {
      SumCountsEmpty(rs[..|rs| - 1]);
    }
  }

  /** Every card is a joker or has exactly one of the ranks. */
  lemma {:induction false} SizeByRanks(h: seq<Card>)
    ensures |h| == JokerCount(h) + SumCounts(h, AllRanks)
  {
    if h == [] {
      SumCountsEmpty(AllRanks);
    } else {
      var init, c := h[..|h| - 1], h[|h| - 1];
      SizeByRanks(init);
      assert h == init + [c];
      SumCountsSnoc(init, c, AllRanks);
      JokerCountSnoc(init, c);
      AllRanksCount(c.rank);
      assert SumCounts(h, AllRanks) + JokerCount(h) == SumCounts(init, AllRanks) + JokerCount(init) + 1;
    }
  }

  lemma {:induction false} SumCountsReduce(h: seq<Card>, rs: seq<Rank>)
    ensures SumCounts(Reduce(h), rs) + 2 * PairedIn(h, rs) == SumCounts(h, rs)
  {
    if rs != [] {
      SumCountsReduce(h, rs[..|rs| - 1]);
      ReduceRankCount(h, rs[|rs| - 1]);
    }
  }

  /** `discardPairs` removes exactly two cards per rank held at least twice. */
  lemma ReduceSize(h: seq<Card>)
    ensures |Reduce(h)| + 2 * PairedRanks(h) == |h|
  {
    SizeByRanks(h);
    SizeByRanks(Reduce(h));
    ReduceKeepsJokers(h);
    SumCountsReduce(h, AllRanks);
  }

  // ---------------------------------------------------------------------------
  // findPairs

  /** The ranks of the non-joker cards of `h`, each once, in the order they first appear. */
  function FirstSeen(h: seq<Card>): seq<Rank> {
    if h == [] then []
    else
      var keys, c := FirstSeen(h[..|h| - 1]), h[|h| - 1];
      if IsJoker(c) || c.rank in keys then keys else keys + [c.rank]
  }

  /** The rank keys whose strings ("2" to "10") are array indices. */
  predicate IsIndexKey(r: Rank) {
    r in {Two, Three, Four, Five, Six, Seven, Eight, Nine, Ten}
  }

  /** The index-like rank keys in ascending numeric order. */
  const IndexKeys: seq<Rank> := [Two, Three, Four, Five, Six, Seven, Eight, Nine, Ten]

  function FilterIn(rs: seq<Rank>, keys: seq<Rank>): (o: seq<Rank>)
    ensures forall r :: r in o <==> r in rs && r in keys
  {
    if rs == [] then []
    else FilterIn(rs[..|rs| - 1], keys) + (if rs[|rs| - 1] in keys then [rs[|rs| - 1]] else [])
  }

  function NamedKeys(keys: seq<Rank>): (o: seq<Rank>)
    ensures forall r :: r in o <==> r in keys && !IsIndexKey(r)
  {
    if keys == [] then []
    else NamedKeys(keys[..|keys| - 1]) + (if IsIndexKey(keys[|keys| - 1]) then [] else [keys[|keys| - 1]])
  }

  /**
   * The order in which a `for ... in` loop visits the keys of an object whose
   * keys were inserted in the order `keys`: array-index keys ascending, then
   * the other keys in insertion order.
   */
  function EnumerationOrder(keys: seq<Rank>): seq<Rank> {
    FilterIn(IndexKeys, keys) + NamedKeys(keys)
  }

  function Repeat(r: Rank, k: nat): (o: seq<Rank>)
    ensures |o| == k && forall x :: x in o ==> x == r
  {
    if k == 0 then [] else Repeat(r, k - 1) + [r]
  }

  /** For each key of `ks` in turn, one entry per pair of that rank in `h`. */
  function PairsOf(h: seq<Card>, ks: seq<Rank>): seq<Rank> {
    if ks == [] then [] else PairsOf(h, ks[..|ks| - 1]) + Repeat(ks[|ks| - 1], RankCount(h, ks[|ks| - 1]) / 2)
  }

  /** The list `findPairs` returns. */
  function PairList(h: seq<Card>): seq<Rank> {
    PairsOf(h, EnumerationOrder(FirstSeen(h)))
  }

  /** The first loop of `findPairs`: `counts` per rank, its keys in insertion order. */
  method CountRanks(hand: seq<Card>) returns (counts: map<Rank, nat>, keys: seq<Rank>)
    ensures forall r :: Get(counts, r) == RankCount(hand, r)
    ensures keys == FirstSeen(hand)
  {
    counts := map[];
    keys := [];
    for i := 0 to |hand|
      invariant forall r :: Get(counts, r) == RankCount(hand[..i], r)
      invariant forall r :: r in counts <==> r in keys
      invariant keys == FirstSeen(hand[..i])
    {
      var card := hand[i];
      forall r
        ensures RankCount(hand[..i + 1], r) == RankCount(hand[..i], r) + (if !IsJoker(card) && card.rank == r then 1 else 0)
      {
        RankCountTake(hand, i, r);
      }
      assert hand[..i + 1][..i] == hand[..i];
      if IsJoker(card) {
        continue;
      }
      var key := card.rank;
      if key !in counts {
        keys := keys + [key];
      }
      counts := counts[key := if key in counts then counts[key] + 1 else 1];
    }
    assert hand[..|hand|] == hand;
  }

  /** The innermost loop of `findPairs`: push `rank` onto `pairs` `k` times. */
  method PushRepeated(pairs: seq<Rank>, rank: Rank, k: nat) returns (out: seq<Rank>)
    ensures out == pairs + Repeat(rank, k)
  {
    out := pairs;
    for i := 0 to k
      invariant out == pairs + Repeat(rank, i)
    {
      out := out + [rank];
    }
  }

  /** The second loop of `findPairs`: for each key of `order`, one entry per pair. */
  method ListPairs(hand: seq<Card>, counts: map<Rank, nat>, order: seq<Rank>) returns (pairs: seq<Rank>)
    requires forall r :: Get(counts, r) == RankCount(hand, r)
    ensures pairs == PairsOf(hand, order)
  {
    pairs := [];
    for j := 0 to |order|
      invariant pairs == PairsOf(hand, order[..j])
    {
      var rank := order[j];
      pairs := PushRepeated(pairs, rank, Get(counts, rank) / 2);
      assert order[..j + 1][..j] == order[..j];
    }
    assert order[..|order|] == order;
  }

  /** `findPairs`: count ranks, then list every rank once per pair, in key enumeration order. */
  method FindPairs(hand: seq<Card>) returns (pairs: seq<Rank>)
    ensures pairs == PairList(hand)
  {
    var counts, keys := CountRanks(hand);
    pairs := ListPairs(hand, counts, EnumerationOrder(keys));
  }

  predicate NoDuplicates(rs: seq<Rank>) {
    forall i, j :: 0 <= i < j < |rs| ==> rs[i] != rs[j]
  }

  lemma {:induction false} FirstSeenKeys(h: seq<Card>)
    ensures NoDuplicates(FirstSeen(h))
    ensures forall r :: r in FirstSeen(h) <==> RankCount(h, r) > 0
  {
    if h != [] {
      var init, c := h[..|h| - 1], h[|h| - 1];
      FirstSeenKeys(init);
      assert h == init + [c];
      forall r
        ensures RankCount(h, r) == RankCount(init, r) + (if !IsJoker(c) && c.rank == r then 1 else 0)
      {
        RankCountSnoc(init, c, r);
      }
    }
  }

  lemma {:induction false} FilterInNoDuplicates(rs: seq<Rank>, keys: seq<Rank>)
    requires NoDuplicates(rs)
    ensures NoDuplicates(FilterIn(rs, keys))
  {
    if rs != [] {
      FilterInNoDuplicates(rs[..|rs| - 1], keys);
    }
  }

  lemma {:induction false} NamedKeysNoDuplicates(keys: seq<Rank>)
    requires NoDuplicates(keys)
    ensures NoDuplicates(NamedKeys(keys))
  {
    if keys != [] {
      NamedKeysNoDuplicates(keys[..|keys| - 1]);
    }
  }

  lemma IndexKeysAreIndexKeys(r: Rank)
    ensures r in IndexKeys <==> IsIndexKey(r)
  {
  }

  lemma ConcatNoDuplicates(a: seq<Rank>, b: seq<Rank>)
    requires NoDuplicates(a) && NoDuplicates(b)
    requires forall r :: r in a ==> r !in b
    ensures NoDuplicates(a + b)
  {
    forall i, j | 0 <= i < j < |a + b|
      ensures (a + b)[i] != (a + b)[j]
    {
      if i < |a| && j >= |a| {
        assert (a + b)[i] in a && (a + b)[j] in b;
      }
    }
  }

  /** Each rank the hand holds is visited exactly once; no other rank is visited. */
  lemma EnumerationOrderKeys(h: seq<Card>)
    ensures NoDuplicates(EnumerationOrder(FirstSeen(h)))
    ensures forall r :: r in EnumerationOrder(FirstSeen(h)) <==> RankCount(h, r) > 0
  {
    var keys := FirstSeen(h);
    FirstSeenKeys(h);
    FilterInNoDuplicates(IndexKeys, keys);
    NamedKeysNoDuplicates(keys);
    var a, b := FilterIn(IndexKeys, keys), NamedKeys(keys);
    forall r | r in a
      ensures r !in b
    {
      IndexKeysAreIndexKeys(r);
    }
    ConcatNoDuplicates(a, b);
    forall r
      ensures r in a + b <==> RankCount(h, r) > 0
    {
      IndexKeysAreIndexKeys(r);
    }
  }

  lemma {:induction false} PairsOfCount(h: seq<Card>, ks: seq<Rank>, r: Rank)
    requires NoDuplicates(ks)
    ensures multiset(PairsOf(h, ks))[r] == if r in ks then RankCount(h, r) / 2 else 0
  {
    if ks != [] {
      var init, last := ks[..|ks| - 1], ks[|ks| - 1];
      PairsOfCount(h, init, r);
      RepeatCount(last, RankCount(h, last) / 2, r);
      assert ks == init + [last];
    }
  }

  lemma {:induction false} RepeatCount(x: Rank, k: nat, r: Rank)
    ensures multiset(Repeat(x, k))[r] == if r == x then k else 0
  {
    if k > 0 {
      RepeatCount(x, k - 1, r);
    }
  }

  /** `findPairs` lists every rank `floor(count / 2)` times and nothing else. */
  lemma PairListCount(h: seq<Card>, r: Rank)
    ensures multiset(PairList(h))[r] == RankCount(h, r) / 2
  {
    EnumerationOrderKeys(h);
    PairsOfCount(h, EnumerationOrder(FirstSeen(h)), r);
  }

  /** A rank is listed by `findPairs` exactly when `discardPairs` removes a pair of it. */
  lemma PairListAgreesWithReduce(h: seq<Card>, r: Rank)
    ensures r in PairList(h) <==> RankCount(Reduce(h), r) < RankCount(h, r)
  {
    PairListCount(h, r);
    ReduceRankCount(h, r);
  }
}
