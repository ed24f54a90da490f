/**
 * Cards, the 53-card deck built by `createDeck` and the in-place
 * Fisher-Yates `shuffle` of the game server.
 */
module Cards {
  datatype Suit = Spades | Hearts | Diamonds | Clubs | JokerSuit

  datatype Rank =
    | Ace | Two | Three | Four | Five | Six | Seven | Eight | Nine | Ten
    | Jack | Queen | King | JokerRank

  datatype Card = Card(suit: Suit, rank: Rank)

  /** The single unpaired card, `{suit: 'Joker', rank: 'Joker'}`. */
  const Joker: Card := Card(JokerSuit, JokerRank)

  /** The suits and ranks in the order the deck is built. */
  const Suits: seq<Suit> := [Spades, Hearts, Diamonds, Clubs]
  const Ranks: seq<Rank> := [Ace, Two, Three, Four, Five, Six, Seven, Eight, Nine, Ten, Jack, Queen, King]

  /** The server tells the joker apart by its suit alone. */
  predicate IsJoker(c: Card) {
    c.suit == JokerSuit
  }

  /** One of the 52 suit/rank combinations of a standard deck. */
  predicate IsStandard(c: Card) {
    c.suit != JokerSuit && c.rank != JokerRank
  }

  /** The cards of suit `s`, one per rank of `rs`, in the order of `rs`. */
  function Row(s: Suit, rs: seq<Rank>): seq<Card> {
    if rs == [] then [] else Row(s, rs[..|rs| - 1]) + [Card(s, rs[|rs| - 1])]
  }

  /** A full row of thirteen ranks for each suit of `ss`, in the order of `ss`. */
  function Rows(ss: seq<Suit>): seq<Card> {
    if ss == [] then [] else Rows(ss[..|ss| - 1]) + Row(ss[|ss| - 1], Ranks)
  }

  /** The deck `createDeck` returns: suit by suit, rank by rank, then the joker. */
  function FullDeck(): seq<Card> {
    Rows(Suits) + [Joker]
  }

  /** The position of a rank in `Ranks`; the joker rank comes after all of them. */
  function RankIndex(r: Rank): nat {
    match r
    case Ace => 0 case Two => 1 case Three => 2 case Four => 3 case Five => 4
    case Six => 5 case Seven => 6 case Eight => 7 case Nine => 8 case Ten => 9
    case Jack => 10 case Queen => 11 case King => 12 case JokerRank => 13
  }

  lemma IndexOfRank(k: nat)
    requires k < 13
    ensures RankIndex(Ranks[k]) == k
  {
  }

  lemma {:induction false} RanksPrefixCount(k: nat, r: Rank)
    requires k <= 13
    ensures multiset(Ranks[..k])[r] == if RankIndex(r) < k then 1 else 0
  {
    if k > 0 {
      RanksPrefixCount(k - 1, r);
      IndexOfRank(k - 1);
      assert Ranks[..k] == Ranks[..k - 1] + [Ranks[k - 1]];
    }
  }

  /** Every rank but the joker's appears exactly once in `Ranks`. */
  lemma RanksCount(r: Rank)
    ensures multiset(Ranks)[r] == if r == JokerRank then 0 else 1
  {
    RanksPrefixCount(13, r);
    assert Ranks[..13] == Ranks;
  }

  lemma SuitsCount(s: Suit)
    ensures multiset(Suits)[s] == if s == JokerSuit then 0 else 1
  {
  }

  lemma {:induction false} RowCount(s: Suit, rs: seq<Rank>, c: Card)
    ensures |Row(s, rs)| == |rs|
    ensures multiset(Row(s, rs))[c] == if c.suit == s then multiset(rs)[c.rank] else 0
  {
    if rs != [] {
      var init := rs[..|rs| - 1];
      RowCount(s, init, c);
      assert rs == init + [rs[|rs| - 1]];
    }
  }

  lemma SplitLast<X>(s: seq<X>)
    requires s != []
    ensures multiset(s) == multiset(s[..|s| - 1]) + multiset{s[|s| - 1]}
  {
    assert s == s[..|s| - 1] + [s[|s| - 1]];
  }

  lemma FullRowCount(s: Suit, c: Card)
    ensures |Row(s, Ranks)| == 13
    ensures multiset(Row(s, Ranks))[c] == if c.suit == s && c.rank != JokerRank then 1 else 0
  {
    RowCount(s, Ranks, c);
    RanksCount(c.rank);
  }

  lemma {:induction false} RowsCount(ss: seq<Suit>, c: Card)
    ensures |Rows(ss)| == 13 * |ss|
    ensures multiset(Rows(ss))[c] == if c.rank == JokerRank then 0 else multiset(ss)[c.suit]
  {
    if ss != [] {
      var init, last := ss[..|ss| - 1], ss[|ss| - 1];
      RowsCount(init, c);
      FullRowCount(last, c);
      SplitLast(ss);
      var a, b := Rows(init), Row(last, Ranks);
      assert multiset(a + b)[c] == multiset(a)[c] + multiset(b)[c];
    }
  }

  /** The deck holds 53 cards: each standard card exactly once, and the joker last. */
  lemma DeckContents()
    ensures |FullDeck()| == 53
    ensures FullDeck()[52] == Joker
    ensures forall c :: multiset(FullDeck())[c] == if IsStandard(c) || c == Joker then 1 else 0
  {
    forall c
      ensures multiset(FullDeck())[c] == if IsStandard(c) || c == Joker then 1 else 0
    {
      RowsCount(Suits, c);
      SuitsCount(c.suit);
    }
    RowsCount(Suits, Joker);
  }

  /** The inner loop of `createDeck`: one card of `suit` per rank, in rank order. */
  method SuitRow(suit: Suit) returns (row: seq<Card>)
    ensures row == Row(suit, Ranks)
  {
    row := [];
    for ri := 0 to |Ranks|
      invariant row == Row(suit, Ranks[..ri])
    {
      assert Ranks[..ri + 1][..ri] == Ranks[..ri];
      row := row + [Card(suit, Ranks[ri])];
    }
    assert Ranks[..|Ranks|] == Ranks;
  }

  /** How often one card occurs in the deck: once for a standard card or the joker, else never. */
  lemma DeckCard(c: Card)
    ensures multiset(FullDeck())[c] == if IsStandard(c) || c == Joker then 1 else 0
  {
    DeckContents();
  }

  /** `createDeck`: a row per suit, in suit order, then the joker. */
  method CreateDeck() returns (deck: seq<Card>)
    ensures deck == FullDeck()
    ensures |deck| == 53 && deck[52] == Joker
    ensures forall c :: multiset(deck)[c] == if IsStandard(c) || c == Joker then 1 else 0
  {
    deck := [];
    for si := 0 to |Suits|
      invariant deck == Rows(Suits[..si])
    {
      var row := SuitRow(Suits[si]);
      assert Suits[..si + 1][..si] == Suits[..si];
      deck := deck + row;
    }
    assert Suits[..|Suits|] == Suits;
    deck := deck + [Joker];
    DeckContents();
  }

  /**
   * `shuffle`: walk from the last index down to 1 and swap each element with
   * one at or before it. The random draw is an arbitrary choice in [0, i].
   */
  method Shuffle<T>(a: array<T>)
    modifies a
    ensures multiset(a[..]) == multiset(old(a[..]))
  {
    var i := a.Length - 1;
    while i > 0
      invariant i < a.Length
      invariant multiset(a[..]) == multiset(old(a[..]))
    {
      var j :| 0 <= j <= i;
      a[i], a[j] := a[j], a[i];
      i := i - 1;
    }
  }

  /** `shuffle([...hand])`: a shuffled copy of a hand, as the server re-shuffles hands. */
  method ShuffleHand(hand: seq<Card>) returns (r: seq<Card>)
    ensures |r| == |hand|
    ensures multiset(r) == multiset(hand)
  {
    var a := new Card[|hand|](k requires 0 <= k < |hand| => hand[k]);
    assert a[..] == hand;
    Shuffle(a);
    r := a[..];
    assert |multiset(r)| == |multiset(hand)|;
  }
}
