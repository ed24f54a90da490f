/**
 * `dealCards`: split a deck of T cards among N seats, floor(T/N) cards each in
 * consecutive blocks, then the T mod N remaining cards one to each of the first seats.
 */
module Deal {
  import opened Wrappers
  import opened Cards

  datatype DealError = InvalidPlayerCount

  /** Where block `i` of `b` cards starts: the running card index of the first dealing loop. */
  function Offset(i: nat, b: nat): nat {
    if i == 0 then 0 else Offset(i - 1, b) + b
  }

  lemma {:induction false} OffsetMono(i: nat, j: nat, b: nat)
    requires i <= j
    ensures Offset(i, b) <= Offset(j, b)
    decreases j
  {
    if i < j {
      OffsetMono(i, j - 1, b);
    }
  }

  lemma {:induction false} OffsetZero(i: nat)
    ensures Offset(i, 0) == 0
  {
    if i > 0 {
      OffsetZero(i - 1);
    }
  }

  lemma {:induction false} OffsetSucc(i: nat, b: nat)
    ensures Offset(i, b + 1) == Offset(i, b) + i
  {
    if i > 0 {
      OffsetSucc(i - 1, b);
    }
  }

  lemma {:induction false} OffsetIsProduct(i: nat, b: nat)
    ensures Offset(i, b) == i * b
  {
    if i > 0 {
      OffsetIsProduct(i - 1, b);
      assert i * b == (i - 1) * b + b;
    }
  }

  /** floor(t / n), by repeated subtraction. */
  function Quot(t: nat, n: nat): nat
    requires n >= 1
  {
    if t < n then 0 else Quot(t - n, n) + 1
  }

  /** t mod n, by repeated subtraction. */
  function Rem(t: nat, n: nat): (r: nat)
    requires n >= 1
    ensures r < n
  {
    if t < n then t else Rem(t - n, n)
  }

  /** The deck is N full blocks of floor(T/N) cards followed by the T mod N remaining cards. */
  lemma {:induction false} QuotRem(t: nat, n: nat)
    requires n >= 1
    ensures t == Offset(n, Quot(t, n)) + Rem(t, n)
  {
    if t >= n {
      QuotRem(t - n, n);
      OffsetSucc(n, Quot(t - n, n));
    } else {
      OffsetZero(n);
    }
  }

  lemma MulBounds(n: int, d: int)
    requires n >= 1 && -n < n * d < n
    ensures d == 0
  {
  }

  /** Quotient and remainder are unique: any split `t == n * q + r` with `0 <= r < n` is Dafny's. */
  lemma DivUnique(t: int, n: int, q: int, r: int)
    requires n >= 1 && 0 <= r < n && t == n * q + r
    ensures q == t / n && r == t % n
  {
    var q', r' := t / n, t % n;
    assert t == n * q' + r' && 0 <= r' < n;
    assert n * (q - q') == r' - r;
    MulBounds(n, q - q');
  }

  /** The repeated subtraction agrees with `Math.floor(t / n)` and `t % n` for the non-negative operands of the deal. */
  lemma QuotIsDiv(t: nat, n: nat)
    requires n >= 1
    ensures Quot(t, n) == t / n && Rem(t, n) == t % n
  {
    QuotRem(t, n);
    OffsetIsProduct(n, Quot(t, n));
    DivUnique(t, n, Quot(t, n), Rem(t, n));
  }

  /** floor(T/N): the cards every seat gets in the first loop. */
  function Block(deck: seq<Card>, n: nat): nat
    requires n >= 1
  {
    Quot(|deck|, n)
  }

  /** T mod N: the seats that get one more card in the second loop. */
  function Extra(deck: seq<Card>, n: nat): nat
    requires n >= 1
  {
    Rem(|deck|, n)
  }

  /** Where the cards of the second loop start. */
  function TailStart(deck: seq<Card>, n: nat): nat
    requires n >= 1
  {
    Offset(n, Block(deck, n))
  }

  lemma Layout(deck: seq<Card>, n: nat)
    requires n >= 1
    ensures |deck| == TailStart(deck, n) + Extra(deck, n) && Extra(deck, n) < n
  {
    QuotRem(|deck|, n);
  }

  /** Seat `i` holds floor(T/N) cards, and one more when `i < T mod N`. */
  lemma DealtHandSize(deck: seq<Card>, n: nat, i: nat)
    requires i < n
    ensures |DealtHand(deck, n, i)| == |deck| / n + (if i < |deck| % n then 1 else 0)
  {
    QuotIsDiv(|deck|, n);
  }

  /** Block `q` of floor(T/N) consecutive cards, dealt to seat `q` by the first loop. */
  function BlockCards(deck: seq<Card>, n: nat, q: nat): (h: seq<Card>)
    requires q < n
    ensures |h| == Block(deck, n)
  {
    Layout(deck, n);
    OffsetMono(q + 1, n, Block(deck, n));
    deck[Offset(q, Block(deck, n)) .. Offset(q + 1, Block(deck, n))]
  }

  /** The card of the tail that the second loop gives seat `q`. */
  function TailCard(deck: seq<Card>, n: nat, q: nat): Card
    requires n >= 1 && q < Extra(deck, n)
  {
    Layout(deck, n);
    deck[TailStart(deck, n) + q]
  }

  /** The hand of seat `i`: its block of floor(T/N) cards, plus one card of the tail when `i < T mod N`. */
  function DealtHand(deck: seq<Card>, n: nat, i: nat): (h: seq<Card>)
    requires i < n
    ensures |h| == Block(deck, n) + (if i < Extra(deck, n) then 1 else 0)
  {
    BlockCards(deck, n, i) + (if i < Extra(deck, n) then [TailCard(deck, n, i)] else [])
  }

  /** The multiset union of a sequence of hands. */
  function Union(hands: seq<seq<Card>>): multiset<Card> {
    if hands == [] then multiset{} else Union(hands[..|hands| - 1]) + multiset(hands[|hands| - 1])
  }

  /** Every hand is part of the union. */
  lemma {:induction false} UnionHas(hands: seq<seq<Card>>, i: nat)
    requires i < |hands|
    ensures multiset(hands[i]) <= Union(hands)
  {
    if i < |hands| - 1 {
      UnionHas(hands[..|hands| - 1], i);
    }
  }

  /** A card the union holds once lies in exactly one hand. */
  lemma {:induction false} UnionSingle(hands: seq<seq<Card>>, c: Card)
    requires Union(hands)[c] == 1
    ensures exists i :: (0 <= i < |hands| && multiset(hands[i])[c] == 1
      && forall j :: 0 <= j < |hands| && j != i ==> multiset(hands[j])[c] == 0)
  {
    var init, last := hands[..|hands| - 1], hands[|hands| - 1];
    if multiset(last)[c] == 1 {
      forall j | 0 <= j < |init|
        ensures multiset(hands[j])[c] == 0
      {
        UnionHas(init, j);
      }
    } else {
      UnionSingle(init, c);
      var i :| 0 <= i < |init| && multiset(init[i])[c] == 1
        && forall j :: 0 <= j < |init| && j != i ==> multiset(init[j])[c] == 0;
      assert multiset(hands[i])[c] == 1;
    }
  }

  /** Hand `h` is the cards at positions `a..b` followed by those at `c..d`. */
  predicate CutFrom(deck: seq<Card>, h: seq<Card>, a: nat, b: nat, c: nat, d: nat) {
    a <= b <= c <= d <= |deck| && h == deck[a..b] + deck[c..d]
  }

  lemma PrefixStep(deck: seq<Card>, p: nat, p': nat, t0: nat, t: nat, t': nat, u: multiset<Card>, h: seq<Card>, u': multiset<Card>)
    requires p <= p' <= t0 <= t <= t' <= |deck|
    requires u == multiset(deck[..p]) + multiset(deck[t0..t])
    requires h == deck[p..p'] + deck[t..t']
    requires u' == u + multiset(h)
    ensures u' == multiset(deck[..p']) + multiset(deck[t0..t'])
  {
    assert deck[..p'] == deck[..p] + deck[p..p'];
    assert deck[t0..t'] == deck[t0..t] + deck[t..t'];
  }

  /**
   * The first `k` hands, each cut from two runs of consecutive deck positions,
   * `s[q]..s[q + 1]` and `t[q]..t[q + 1]`, together hold exactly the cards of
   * both runs up to `k`.
   */
  lemma {:induction false} RunsUnion(deck: seq<Card>, hands: seq<seq<Card>>, s: seq<nat>, t: seq<nat>, k: nat)
    requires k <= |hands| && |s| == |t| == |hands| + 1 && s[0] == 0 && t[0] <= |deck|
    requires forall q :: 0 <= q <= |hands| ==> s[q] <= t[0]
    requires forall q :: 0 <= q < |hands| ==> CutFrom(deck, hands[q], s[q], s[q + 1], t[q], t[q + 1])
    ensures t[0] <= t[k] <= |deck|
    ensures Union(hands[..k]) == multiset(deck[..s[k]]) + multiset(deck[t[0]..t[k]])
  {
    if k == 0 {
      assert hands[..0] == [] && deck[..0] == [] && deck[t[0]..t[0]] == [];
    } else {
      var j := k - 1;
      RunsUnion(deck, hands, s, t, j);
      assert CutFrom(deck, hands[j], s[j], s[k], t[j], t[k]);
      assert hands[..k][..j] == hands[..j];
      PrefixStep(deck, s[j], s[k], t[0], t[j], t[k], Union(hands[..j]), hands[j], Union(hands[..k]));
    }
  }

  /** The two runs of `dealCards`: block boundaries, and where each seat's tail card lies. */
  lemma DealtRuns(deck: seq<Card>, n: nat, q: nat)
    requires q < n
    ensures Offset(q, Block(deck, n)) <= Offset(q + 1, Block(deck, n)) <= TailStart(deck, n)
    ensures TailStart(deck, n) + Min(q + 1, Extra(deck, n)) <= |deck|
    ensures DealtHand(deck, n, q) == deck[Offset(q, Block(deck, n)) .. Offset(q + 1, Block(deck, n))]
        + deck[TailStart(deck, n) + Min(q, Extra(deck, n)) .. TailStart(deck, n) + Min(q + 1, Extra(deck, n))]
  {
    Layout(deck, n);
    OffsetMono(q + 1, n, Block(deck, n));
    var lo, rem := TailStart(deck, n), Extra(deck, n);
    if q < rem {
      assert deck[lo + Min(q, rem) .. lo + Min(q + 1, rem)] == [deck[lo + q]];
    } else {
      assert deck[lo + Min(q, rem) .. lo + Min(q + 1, rem)] == [];
    }
  }

  /** Where each block starts, seat by seat, and where the tail cards of the seats start. */
  function BlockStarts(deck: seq<Card>, n: nat): (s: seq<nat>)
    requires n >= 1
    ensures |s| == n + 1
  {
    seq(n + 1, q requires 0 <= q <= n => Offset(q, Block(deck, n)))
  }

  function TailStarts(deck: seq<Card>, n: nat): (t: seq<nat>)
    requires n >= 1
    ensures |t| == n + 1
  {
    seq(n + 1, q requires 0 <= q <= n => TailStart(deck, n) + Min(q, Extra(deck, n)))
  }

  lemma StartsSorted(deck: seq<Card>, n: nat)
    requires n >= 1
    ensures forall p, q :: 0 <= p <= q <= n ==>
      BlockStarts(deck, n)[p] <= BlockStarts(deck, n)[q] && TailStarts(deck, n)[p] <= TailStarts(deck, n)[q]
    ensures BlockStarts(deck, n)[0] == 0 && BlockStarts(deck, n)[n] == TailStarts(deck, n)[0]
    ensures TailStarts(deck, n)[n] == |deck|
  {
    Layout(deck, n);
    forall p, q | 0 <= p <= q <= n
      ensures BlockStarts(deck, n)[p] <= BlockStarts(deck, n)[q]
    {
      OffsetMono(p, q, Block(deck, n));
    }
  }

  lemma HandsCut(deck: seq<Card>, n: nat, hands: seq<seq<Card>>, s: seq<nat>, t: seq<nat>)
    requires 1 <= n == |hands| && s == BlockStarts(deck, n) && t == TailStarts(deck, n)
    requires forall q :: 0 <= q < n ==> hands[q] == DealtHand(deck, n, q)
    ensures forall q :: 0 <= q < n ==> CutFrom(deck, hands[q], s[q], s[q + 1], t[q], t[q + 1])
  {
    forall q | 0 <= q < n
      ensures CutFrom(deck, hands[q], s[q], s[q + 1], t[q], t[q + 1])
    {
      DealtRuns(deck, n, q);
    }
  }

  lemma SplitMultiset(deck: seq<Card>, m: nat)
    requires m <= |deck|
    ensures multiset(deck[..m]) + multiset(deck[m..|deck|]) == multiset(deck)
  {
    assert deck[..m] + deck[m..|deck|] == deck;
  }

  /** No card is lost or duplicated: the hands `dealCards` deals together are exactly the deck. */
  lemma HandsUnion(deck: seq<Card>, n: nat, hands: seq<seq<Card>>)
    requires 1 <= n == |hands|
    requires forall q :: 0 <= q < n ==> hands[q] == DealtHand(deck, n, q)
    ensures Union(hands) == multiset(deck)
  {
    StartsSorted(deck, n);
    var s, t := BlockStarts(deck, n), TailStarts(deck, n);
    HandsCut(deck, n, hands, s, t);
    forall q | 0 <= q <= n
      ensures s[q] <= t[0]
    {
      assert s[q] <= s[n];
    }
    RunsUnion(deck, hands, s, t, n);
    assert hands[..n] == hands;
    SplitMultiset(deck, t[0]);
  }

  lemma SliceSnoc(deck: seq<Card>, a: nat, c: nat)
    requires a <= c < |deck|
    ensures deck[a..c] + [deck[c]] == deck[a..c + 1]
  {
  }

  /** The inner loop of the first dealing loop: `count` consecutive cards from `lo`. */
  method TakeRun(deck: seq<Card>, lo: nat, count: nat) returns (run: seq<Card>)
    requires lo + count <= |deck|
    ensures run == deck[lo .. lo + count]
  {
    run := [];
    for card := 0 to count
      invariant run == deck[lo .. lo + card]
    {
      SliceSnoc(deck, lo, lo + card);
      run := run + [deck[lo + card]];
    }
  }

  /** The first loop of `dealCards`: every seat gets its block of floor(T/N) consecutive cards. */
  method DealBlocks(deck: seq<Card>, n: nat) returns (hands: seq<seq<Card>>, cardIndex: nat)
    requires n >= 1
    ensures |hands| == n && cardIndex == TailStart(deck, n)
    ensures forall q :: 0 <= q < n ==> hands[q] == BlockCards(deck, n, q)
  {
    hands := seq(n, _ => []);
    var b := Block(deck, n);
    Layout(deck, n);
    cardIndex := 0;
    for player := 0 to n
      invariant |hands| == n && cardIndex == Offset(player, b) <= TailStart(deck, n)
      invariant forall q :: 0 <= q < player ==> hands[q] == BlockCards(deck, n, q)
      invariant forall q :: player <= q < n ==> hands[q] == []
    {
      OffsetMono(player + 1, n, b);
      var block := TakeRun(deck, cardIndex, b);
      hands := hands[player := block];
      cardIndex := cardIndex + b;
    }
  }

  /** The second loop of `dealCards`: the T mod N remaining cards, one each to the first seats. */
  method DealExtras(deck: seq<Card>, n: nat, blocks: seq<seq<Card>>, start: nat) returns (hands: seq<seq<Card>>)
    requires n >= 1 && |blocks| == n && start == TailStart(deck, n)
    requires forall q :: 0 <= q < n ==> blocks[q] == BlockCards(deck, n, q)
    ensures |hands| == n
    ensures forall q :: 0 <= q < n ==> hands[q] == DealtHand(deck, n, q)
  {
    Layout(deck, n);
    hands := blocks;
    var cardIndex := start;
    for extra := 0 to Extra(deck, n)
      invariant |hands| == n && cardIndex == TailStart(deck, n) + extra
      invariant forall q :: 0 <= q < n ==>
        hands[q] == BlockCards(deck, n, q) + (if q < extra then [TailCard(deck, n, q)] else [])
    {
      hands := hands[extra := hands[extra] + [deck[cardIndex]]];
      cardIndex := cardIndex + 1;
    }
  }

  /** `dealCards`: the two dealing loops, failing for a player count below two. */
  method DealCards(deck: seq<Card>, n: int) returns (r: Result<seq<seq<Card>>, DealError>)
    ensures r.Failure? <==> n < 2
    ensures r.Success? ==> |r.value| == n
    ensures r.Success? ==> forall i :: 0 <= i < n ==> r.value[i] == DealtHand(deck, n, i)
    ensures r.Success? ==> Union(r.value) == multiset(deck)
  {
    if n < 2 {
      return Failure(InvalidPlayerCount);
    }
    var blocks, cardIndex := DealBlocks(deck, n);
    var hands := DealExtras(deck, n, blocks, cardIndex);
    HandsUnion(deck, n, hands);
    r := Success(hands);
  }
}
