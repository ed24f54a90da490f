/**
 * The registry of game rooms (`games`) and the seven request handlers of the
 * server that change it. Every handler checks its conditions in the order the
 * server does; a rejected request leaves every room as it was.
 */
module Rooms {
  import opened Wrappers
  import opened Cards
  import opened Text
  import opened Table
  import Deal
  import Pairs

  /** The error replies, one per check of the handlers. */
  datatype Error =
    | InvalidIdLength
    | IdTaken
    | InvalidIdChars
    | GameNotFound
    | NameRequired
    | GameFull
    | BadPlayerCount
    | PlayerNotFound
    | TargetNotFound
    | NotYourTurn
    | PickFromSelf
    | NotNextPlayer(next: string)
    | NotNextAvailable(next: string)
    | TargetNoCards
    | InvalidCardIndex

  /** What a handler that succeeds tells the caller. */
  datatype Reply =
    | Created(gameId: string, joinedAs: Option<string>)
    | Joined(playerId: string, gameId: string)
    | Started(deck: seq<Card>)
    | Ignored
    | Reset
    | LeftGame
    | Hand(hand: seq<Card>)
    | Picked(pickerHand: seq<Card>, targetHand: seq<Card>)

  /**
   * The invariant every handler keeps: a started room has at least two seats
   * and the turn on one of them; a room in its lobby has the turn on seat 0
   * and cards, if any, only on seat 0. So whenever a room has a player,
   * `currentTurn` indexes one.
   */
  predicate WellFormed(g: Game) {
    (|g.players| > 0 ==> g.currentTurn < |g.players|)
    && (g.started ==> 2 <= |g.players|)
    && (!g.started ==> g.currentTurn == 0 && forall i :: 1 <= i < |g.players| ==> g.players[i].hand == [])
  }

  /**
   * The keys every plain JavaScript object inherits from `Object.prototype`.
   * `games` is such an object, so `games[id]` is truthy for these names even
   * when no room was ever stored under them.
   */
  const Inherited: set<string> := {
    "constructor", "__defineGetter__", "__defineSetter__", "hasOwnProperty",
    "__lookupGetter__", "__lookupSetter__", "isPrototypeOf", "propertyIsEnumerable",
    "toString", "valueOf", "__proto__", "toLocaleString"}

  /** `games[id]` is truthy: a room is stored under `id`, or `id` is inherited. */
  predicate Occupied(games: map<string, Game>, id: string) {
    id in games || id in Inherited
  }

  /**
   * The inherited name "constructor" passes the length and character checks
   * of `create_game` unchanged by `trim`, so only the check for a free id
   * refuses it.
   */
  lemma ConstructorPassesChecks(games: map<string, Game>)
    ensures Trim("constructor") == "constructor" && Utf16Length("constructor") == 11
    ensures MatchesIdPattern("constructor") && Occupied(games, "constructor")
  {
    var id := "constructor";
    assert forall k :: 0 <= k < |id| ==> 'a' <= id[k] <= 'z';
    IdPatternPlain(id);
  }

  predicate RoomsValid(games: map<string, Game>) {
    forall id :: id in games ==> WellFormed(games[id])
  }

  /** Storing a well-formed room keeps every room well formed. */
  lemma StoreValid(games: map<string, Game>, id: string, g: Game)
    requires RoomsValid(games) && WellFormed(g)
    ensures RoomsValid(games[id := g])
  {
  }

  /** A seat after its hand changed: a player whose hand is empty is finished. */
  function WithHand(p: Player, hand: seq<Card>): Player {
    p.(hand := hand, finished := p.finished || hand == [])
  }

  /**
   * `splice(i, 1)` on a hand or a roster: the sequence without its element at
   * `i`, the others in order.
   */
  function Splice<T(==)>(s: seq<T>, i: nat): (r: seq<T>)
    requires i < |s|
    ensures |r| + 1 == |s|
    ensures forall j :: 0 <= j < |r| ==> r[j] == s[if j < i then j else j + 1]
    ensures multiset(r) + multiset{s[i]} == multiset(s)
  {
    assert s == s[..i] + [s[i]] + s[i + 1..];
    s[..i] + s[i + 1..]
  }

  // ---------------------------------------------------------------------------
  // create_game and join_game

  /** A custom id is used when one is given; an absent id is read as "". */
  function RoomId(customGameId: string, randomId: string): string {
    if customGameId != "" then Trim(customGameId) else randomId
  }

  /** The room `create_game` stores, with the creator seated when a name is given. */
  function NewRoom(reverse: bool, creatorName: string, creatorId: string): (g: Game)
    ensures WellFormed(g)
    ensures !g.started && g.currentTurn == 0 && g.reverse == reverse && g.winner == None && g.loser == None
    ensures g.players == if Trim(creatorName) != "" then [Player(creatorId, Trim(creatorName), [], false)] else []
  {
    if Trim(creatorName) != "" then FreshGame(reverse).(players := [Player(creatorId, Trim(creatorName), [], false)])
    else FreshGame(reverse)
  }

  /** A seat that `join_game` adds keeps a room well formed. */
  lemma JoinWellFormed(g: Game, p: Player)
    requires WellFormed(g) && p.hand == []
    ensures WellFormed(g.(players := g.players + [p]))
  {
  }

  // ---------------------------------------------------------------------------
  // start_game

  /** Seat `i` after the deal: `discardPairs` of the `i`-th dealt hand. */
  function DealtSeats(ps: seq<Player>, deck: seq<Card>): (r: seq<Player>)
    requires |ps| >= 1
    ensures |r| == |ps|
    ensures forall i :: 0 <= i < |ps| ==> r[i] == WithHand(ps[i], Pairs.Reduce(Deal.DealtHand(deck, |ps|, i)))
  {
    seq(|ps|, i requires 0 <= i < |ps| => WithHand(ps[i], Pairs.Reduce(Deal.DealtHand(deck, |ps|, i))))
  }

  /** The room once `start_game` has dealt `deck`, before `checkGameEnd`. */
  function StartedRoom(g: Game, deck: seq<Card>): Game
    requires |g.players| >= 1
  {
    g.(players := DealtSeats(g.players, deck), started := true, currentTurn := 0, loser := None, winner := None)
  }

  /** `shuffle(createDeck())`: the deck shuffled in place. */
  method ShuffledDeck() returns (deck: seq<Card>)
    ensures multiset(deck) == multiset(FullDeck())
  {
    var built := CreateDeck();
    var a := new Card[|built|](k requires 0 <= k < |built| => built[k]);
    assert a[..] == built;
    Shuffle(a);
    deck := a[..];
  }

  /** The `start_game` loop: every seat gets `discardPairs` of its dealt hand and finishes if that is empty. */
  method DiscardDealt(ps: seq<Player>, hands: seq<seq<Card>>, deck: seq<Card>) returns (seats: seq<Player>)
    requires |ps| >= 1 && |hands| == |ps|
    requires forall i :: 0 <= i < |ps| ==> hands[i] == Deal.DealtHand(deck, |ps|, i)
    ensures seats == DealtSeats(ps, deck)
  {
    var n := |ps|;
    seats := ps;
    for i := 0 to n
      invariant |seats| == n
      invariant forall k :: 0 <= k < i ==> seats[k] == WithHand(ps[k], Pairs.Reduce(Deal.DealtHand(deck, n, k)))
      invariant forall k :: i <= k < n ==> seats[k] == ps[k]
    {
      var hand := Pairs.DiscardPairs(hands[i]);
      var p := seats[i].(hand := hand);
      if |hand| == 0 {
        p := p.(finished := true);
      }
      seats := seats[i := p];
    }
  }

  /** The game part of `start_game`: shuffle a new deck, deal it, discard pairs, check for the end. */
  method StartRound(g: Game) returns (deck: seq<Card>, g': Game)
    requires 2 <= |g.players| <= 8
    ensures multiset(deck) == multiset(FullDeck())
    ensures g' == GameEnd(StartedRoom(g, deck)).game
  {
    deck := ShuffledDeck();
    var dealt := Deal.DealCards(deck, |g.players|);
    var ps := DiscardDealt(g.players, dealt.value, deck);
    var room := g.(started := true, currentTurn := 0, loser := None, winner := None, players := ps);
    g' := GameEnd(room).game;
  }

  /** A started room is well formed, and `checkGameEnd` keeps it so. */
  lemma StartWellFormed(g: Game, deck: seq<Card>)
    requires 2 <= |g.players|
    ensures WellFormed(GameEnd(StartedRoom(g, deck)).game)
    ensures GameEnd(StartedRoom(g, deck)).game.started
  {
  }

  /** A hand drawn from one full deck keeps a joker-suit card through `discardPairs` exactly when it holds the joker. */
  lemma DealtJokers(h: seq<Card>)
    requires multiset(h) <= multiset(FullDeck())
    ensures HasJoker(Pairs.Reduce(h)) <==> multiset(h)[Joker] > 0
  {
    forall c | c in h && IsJoker(c)
      ensures c == Joker
    {
      DeckCard(c);
    }
    Pairs.JokerCountOfJoker(h);
    Pairs.ReduceKeepsJokers(h);
    Pairs.JokerCountPositive(h);
    Pairs.JokerCountPositive(Pairs.Reduce(h));
  }

  /** A seat holds a joker-suit card after the deal exactly when the Joker was dealt to it. */
  lemma SeatJoker(g: Game, deck: seq<Card>, q: nat)
    requires q < |g.players|
    requires multiset(Deal.DealtHand(deck, |g.players|, q)) <= multiset(FullDeck())
    ensures HasJoker(DealtSeats(g.players, deck)[q].hand) <==> multiset(Deal.DealtHand(deck, |g.players|, q))[Joker] > 0
  {
    DealtJokers(Deal.DealtHand(deck, |g.players|, q));
  }

  /** After the deal exactly one player holds the joker: a pair discard never removes it. */
  lemma StartOneJoker(g: Game, deck: seq<Card>)
    requires 2 <= |g.players| && multiset(deck) == multiset(FullDeck())
    ensures var ps := DealtSeats(g.players, deck);
      exists i :: 0 <= i < |ps| && HasJoker(ps[i].hand)
        && forall j :: 0 <= j < |ps| && j != i ==> !HasJoker(ps[j].hand)
  {
    var n := |g.players|;
    var hands := seq(n, q requires 0 <= q < n => Deal.DealtHand(deck, n, q));
    Deal.HandsUnion(deck, n, hands);
    DeckCard(Joker);
    Deal.UnionSingle(hands, Joker);
    var i :| 0 <= i < n && multiset(hands[i])[Joker] == 1
      && forall j :: 0 <= j < n && j != i ==> multiset(hands[j])[Joker] == 0;
    var ps := DealtSeats(g.players, deck);
    forall j | 0 <= j < n
      ensures HasJoker(ps[j].hand) <==> j == i
    {
      Deal.UnionHas(hands, j);
      SeatJoker(g, deck, j);
    }
    assert |ps| == n && HasJoker(ps[i].hand);
  }

  lemma FromDeckRanks(h: seq<Card>, r: Rank)
    requires multiset(h) <= multiset(FullDeck())
    ensures Pairs.RankCount(h, r) <= 4
  {
    Pairs.RankCountBySuits(h, r);
    forall s: Suit
      ensures multiset(h)[Card(s, r)] <= 1
    {
      DeckCard(Card(s, r));
    }
  }

  /**
   * After the deal no hand holds more than two cards of a rank, and it holds
   * two only when it was dealt all four: `discardPairs` takes one pair per rank.
   */
  lemma StartRanksAtMostTwo(g: Game, deck: seq<Card>, q: nat, r: Rank)
    requires 2 <= |g.players| && multiset(deck) == multiset(FullDeck()) && q < |g.players|
    ensures var dealt := Deal.DealtHand(deck, |g.players|, q);
      Pairs.RankCount(DealtSeats(g.players, deck)[q].hand, r) <= 2
      && (Pairs.RankCount(DealtSeats(g.players, deck)[q].hand, r) == 2 <==> Pairs.RankCount(dealt, r) == 4)
  {
    var n := |g.players|;
    var hands := seq(n, k requires 0 <= k < n => Deal.DealtHand(deck, n, k));
    Deal.HandsUnion(deck, n, hands);
    Deal.UnionHas(hands, q);
    FromDeckRanks(hands[q], r);
    Pairs.ReduceRankCount(hands[q], r);
  }

  // ---------------------------------------------------------------------------
  // new_game

  /** The room after `new_game`: the same seats in the same order, with empty hands and flags cleared. */
  function ClearedRoom(g: Game): Game {
    g.(players := seq(|g.players|, i requires 0 <= i < |g.players| => g.players[i].(hand := [], finished := false)),
       started := false, currentTurn := 0, loser := None, winner := None)
  }

  /** `new_game` keeps the roster, its order and the mode, empties every hand and leaves a well-formed lobby. */
  lemma ClearedRoomLobby(g: Game)
    ensures var c := ClearedRoom(g);
      WellFormed(c) && !c.started && c.currentTurn == 0 && c.winner == None && c.loser == None
      && c.reverse == g.reverse && |c.players| == |g.players|
      && forall i :: 0 <= i < |g.players| ==>
        c.players[i].id == g.players[i].id && c.players[i].name == g.players[i].name
        && c.players[i].hand == [] && !c.players[i].finished
  {
  }

  /** The reset loop of `new_game`. */
  method ClearRoom(g: Game) returns (g': Game)
    ensures g' == ClearedRoom(g)
  {
    g' := g.(started := false, currentTurn := 0, loser := None, winner := None);
    var ps := g.players;
    for i := 0 to |ps|
      invariant |ps| == |g.players|
      invariant forall k :: 0 <= k < i ==> ps[k] == g.players[k].(hand := [], finished := false)
      invariant forall k :: i <= k < |ps| ==> ps[k] == g.players[k]
    {
      ps := ps[i := ps[i].(hand := [], finished := false)];
    }
    g' := g'.(players := ps);
  }

  // ---------------------------------------------------------------------------
  // leave_game


  /** The room after seat `i` leaves: the turn is pulled back into range and a lone player ends the game. */
  function AfterLeave(g: Game, i: nat): Game
    requires i < |g.players|
  {
    var ps := Splice(g.players, i);
    if g.started && |ps| > 0 then
      var ct := if g.currentTurn >= |ps| then 0 else g.currentTurn;
      if |ps| < 2 then g.(players := ps, currentTurn := ct, started := false, winner := None, loser := None)
      else g.(players := ps, currentTurn := ct)
    else g.(players := ps)
  }

  /** Only the leaving seat goes; the others keep their hands and their order. */
  lemma LeaveRemovesOnlyThatSeat(g: Game, i: nat)
    requires i < |g.players|
    ensures |AfterLeave(g, i).players| == |g.players| - 1
    ensures forall j :: 0 <= j < |g.players| - 1 ==>
      AfterLeave(g, i).players[j] == g.players[if j < i then j else j + 1]
    ensures AfterLeave(g, i).reverse == g.reverse
  {
  }

  /**
   * Leaving keeps a room well formed: a turn at or past the new roster length
   * goes back to seat 0, any other turn stays, and a started room left with one
   * player goes back to the lobby with no result.
   */
  lemma LeaveWellFormed(g: Game, i: nat)
    requires WellFormed(g) && i < |g.players|
    ensures WellFormed(AfterLeave(g, i))
    ensures AfterLeave(g, i).currentTurn == if g.currentTurn >= |g.players| - 1 then 0 else g.currentTurn
    ensures g.started && |g.players| == 2 ==>
      !AfterLeave(g, i).started && AfterLeave(g, i).winner == None && AfterLeave(g, i).loser == None
    ensures g.started && |g.players| > 2 ==> AfterLeave(g, i).started
  {
    var ps := Splice(g.players, i);
    if !g.started {
      forall j | 1 <= j < |ps|
        ensures ps[j].hand == []
      {
        assert ps[j] == g.players[if j < i then j else j + 1];
      }
    }
  }

  // ---------------------------------------------------------------------------
  // discard_pairs

  /** The room after seat `i` discarded its pairs and got `hand` back. */
  function AfterDiscard(g: Game, i: nat, hand: seq<Card>): Game
    requires i < |g.players|
  {
    GameEnd(g.(players := g.players[i := WithHand(g.players[i], hand)])).game
  }

  /** The game part of `discard_pairs`: discard, shuffle what is left, then check for the end. */
  method DiscardHand(g: Game, i: nat) returns (hand: seq<Card>, g': Game)
    requires i < |g.players|
    ensures multiset(hand) == multiset(Pairs.Reduce(g.players[i].hand))
    ensures g' == AfterDiscard(g, i, hand)
  {
    hand := Pairs.DiscardPairs(g.players[i].hand);
    if |hand| > 0 {
      hand := ShuffleHand(hand);
    }
    var p := g.players[i].(hand := hand);
    if |hand| == 0 {
      p := p.(finished := true);
    }
    var room := g.(players := g.players[i := p]);
    g' := GameEnd(room).game;
  }

  /** `discard_pairs` takes exactly two cards out of the game per rank paired. */
  lemma DiscardTotal(g: Game, i: nat, hand: seq<Card>)
    requires i < |g.players| && multiset(hand) == multiset(Pairs.Reduce(g.players[i].hand))
    ensures TotalCards(AfterDiscard(g, i, hand).players) + 2 * Pairs.PairedRanks(g.players[i].hand)
      == TotalCards(g.players)
  {
    assert |hand| == |Pairs.Reduce(g.players[i].hand)| by {
      assert |multiset(hand)| == |multiset(Pairs.Reduce(g.players[i].hand))|;
    }
    Pairs.ReduceSize(g.players[i].hand);
    TotalCardsUpdate(g.players, i, WithHand(g.players[i], hand));
  }

  lemma ReduceEmpty()
    ensures Pairs.Reduce([]) == []
  {
  }

  /** Discarding keeps a room well formed: a lobby seat without cards stays without cards. */
  lemma DiscardWellFormed(g: Game, i: nat, hand: seq<Card>)
    requires WellFormed(g) && i < |g.players| && multiset(hand) == multiset(Pairs.Reduce(g.players[i].hand))
    ensures WellFormed(AfterDiscard(g, i, hand))
  {
    if !g.started && i >= 1 {
      ReduceEmpty();
      assert |multiset(hand)| == 0;
    }
  }

  // ---------------------------------------------------------------------------
  // pick_card

  /**
   * The first check of `pick_card` that fails, in the server's order, or
   * `None` when the pick goes ahead.
   */
  function PickError(g: Game, playerId: string, targetId: string, cardIndex: int): Option<Error>
    requires WellFormed(g)
  {
    var ps := g.players;
    var pi := FindIndex(ps, playerId);
    var ti := FindIndex(ps, targetId);
    if pi < 0 then Some(PlayerNotFound)
    else if ti < 0 then Some(TargetNotFound)
    else if ps[g.currentTurn].id != playerId then Some(NotYourTurn)
    else if playerId == targetId then Some(PickFromSelf)
    else
      var next := Succ(pi, |ps|);
      if ti != next then Some(NotNextPlayer(ps[next].name))
      else
        var avail := SkipFinished(ps, next, pi);
        if ti != avail then Some(NotNextAvailable(ps[avail].name))
        else if ps[ti].hand == [] then Some(TargetNoCards)
        else if cardIndex < 0 || cardIndex >= |ps[ti].hand| then Some(InvalidCardIndex)
        else None
  }

  /**
   * A pick goes ahead exactly when the picker holds the turn, the target is a
   * different player seated right after the picker, that seat is unfinished,
   * and `cardIndex` names one of its cards.
   */
  lemma PickAccepted(g: Game, playerId: string, targetId: string, cardIndex: int)
    requires WellFormed(g)
    ensures PickError(g, playerId, targetId, cardIndex).None? <==>
      var ps := g.players;
      var pi := FindIndex(ps, playerId);
      var ti := FindIndex(ps, targetId);
      0 <= pi && 0 <= ti && ps[g.currentTurn].id == playerId && playerId != targetId
      && ti == Succ(pi, |ps|) && !ps[ti].finished && 0 <= cardIndex < |ps[ti].hand|
  {
  }

  /** When the seat after the picker is finished, every pick is refused. */
  lemma NextSeatFinishedRejects(g: Game, playerId: string, targetId: string, cardIndex: int)
    requires WellFormed(g)
    requires 0 <= FindIndex(g.players, playerId)
    requires g.players[Succ(FindIndex(g.players, playerId), |g.players|)].finished
    ensures PickError(g, playerId, targetId, cardIndex).Some?
  {
    PickAccepted(g, playerId, targetId, cardIndex);
  }

  /** In a room that has not started, every pick is refused. */
  lemma LobbyPickRejected(g: Game, playerId: string, targetId: string, cardIndex: int)
    requires WellFormed(g) && !g.started
    ensures PickError(g, playerId, targetId, cardIndex).Some?
  {
    PickAccepted(g, playerId, targetId, cardIndex);
    var ps := g.players;
    var pi := FindIndex(ps, playerId);
    var ti := FindIndex(ps, targetId);
    if 0 <= pi && 0 <= ti && ps[g.currentTurn].id == playerId && playerId != targetId && ti == Succ(pi, |ps|) {
      assert pi == 0;
      if |ps| == 1 {
        assert false;
      }
      assert ps[ti].hand == [];
    }
  }

  /** The checks of `pick_card`, in order, with the scan for the next available seat. */
  method CheckPick(g: Game, playerId: string, targetId: string, cardIndex: int) returns (e: Option<Error>)
    requires WellFormed(g)
    ensures e == PickError(g, playerId, targetId, cardIndex)
  {
    var ps := g.players;
    var pi := FindIndex(ps, playerId);
    var ti := FindIndex(ps, targetId);
    if pi < 0 {
      return Some(PlayerNotFound);
    }
    if ti < 0 {
      return Some(TargetNotFound);
    }
    if ps[g.currentTurn].id != playerId {
      return Some(NotYourTurn);
    }
    if playerId == targetId {
      return Some(PickFromSelf);
    }
    var next := (pi + 1) % |ps|;
    if ti != next {
      return Some(NotNextPlayer(ps[next].name));
    }
    var avail := NextAvailable(ps, pi);
    if ti != avail {
      return Some(NotNextAvailable(ps[avail].name));
    }
    if |ps[ti].hand| == 0 {
      return Some(TargetNoCards);
    }
    if cardIndex < 0 || cardIndex >= |ps[ti].hand| {
      return Some(InvalidCardIndex);
    }
    return None;
  }

  /** The hands of a pick: the picker's is a permutation of `discardPairs` of its old hand plus the card. */
  predicate PickHands(g: Game, pi: nat, ti: nat, cardIndex: nat, pickerHand: seq<Card>, targetHand: seq<Card>)
    requires pi < |g.players| && ti < |g.players| && cardIndex < |g.players[ti].hand|
  {
    var th := g.players[ti].hand;
    multiset(pickerHand) == multiset(Pairs.Reduce(g.players[pi].hand + [th[cardIndex]]))
    && multiset(targetHand) == multiset(Splice(th, cardIndex))
  }

  /** The room after the picker at seat `pi` drew from seat `ti`, with the new hands given. */
  function AfterPick(g: Game, pi: nat, ti: nat, pickerHand: seq<Card>, targetHand: seq<Card>): Game
    requires pi < |g.players| && ti < |g.players| && g.currentTurn < |g.players|
  {
    var ps := g.players[pi := WithHand(g.players[pi], pickerHand)][ti := WithHand(g.players[ti], targetHand)];
    var end := GameEnd(g.(players := ps));
    if end.ended then end.game
    else end.game.(currentTurn := NextTurn(ps, g.currentTurn, |Active(ps)|))
  }

  /** The card moves of `pick_card`: splice, push, discard, and the two shuffles. */
  method MoveCard(g: Game, pi: nat, ti: nat, cardIndex: nat) returns (pickerHand: seq<Card>, targetHand: seq<Card>)
    requires pi < |g.players| && ti < |g.players| && cardIndex < |g.players[ti].hand|
    ensures PickHands(g, pi, ti, cardIndex, pickerHand, targetHand)
  {
    var th := g.players[ti].hand;
    var card := th[cardIndex];
    targetHand := th[..cardIndex] + th[cardIndex + 1..];
    pickerHand := Pairs.DiscardPairs(g.players[pi].hand + [card]);
    pickerHand := ShuffleHand(pickerHand);
    if |targetHand| > 0 {
      targetHand := ShuffleHand(targetHand);
    }
  }

  /** The game part of `pick_card`, once every check has passed. */
  method PickFrom(g: Game, pi: nat, ti: nat, cardIndex: nat) returns (pickerHand: seq<Card>, targetHand: seq<Card>, g': Game)
    requires pi < |g.players| && ti < |g.players| && pi != ti && g.currentTurn < |g.players|
    requires cardIndex < |g.players[ti].hand|
    ensures PickHands(g, pi, ti, cardIndex, pickerHand, targetHand)
    ensures g' == AfterPick(g, pi, ti, pickerHand, targetHand)
  {
    pickerHand, targetHand := MoveCard(g, pi, ti, cardIndex);
    var ps := g.players;
    var picker := ps[pi].(hand := pickerHand);
    var target := ps[ti].(hand := targetHand);
    if |pickerHand| == 0 {
      picker := picker.(finished := true);
    }
    if |targetHand| == 0 {
      target := target.(finished := true);
    }
    assert picker == WithHand(g.players[pi], pickerHand) && target == WithHand(g.players[ti], targetHand);
    ps := ps[pi := picker][ti := target];
    var end := GameEnd(g.(players := ps));
    g' := end.game;
    if !end.ended {
      assert g' == g.(players := ps);
      var activeCount := |Active(ps)|;
      var turn := AdvanceTurn(ps, g'.currentTurn, activeCount);
      g' := g'.(currentTurn := turn);
    }
  }

  /** A pick moves one card and takes two cards out of the game per rank the picker paired. */
  lemma PickTotal(g: Game, pi: nat, ti: nat, cardIndex: nat, pickerHand: seq<Card>, targetHand: seq<Card>)
    requires pi < |g.players| && ti < |g.players| && pi != ti && g.currentTurn < |g.players|
    requires cardIndex < |g.players[ti].hand|
    requires PickHands(g, pi, ti, cardIndex, pickerHand, targetHand)
    ensures var drawn := g.players[pi].hand + [g.players[ti].hand[cardIndex]];
      TotalCards(AfterPick(g, pi, ti, pickerHand, targetHand).players) + 2 * Pairs.PairedRanks(drawn)
        == TotalCards(g.players)
  {
    var th := g.players[ti].hand;
    var drawn := g.players[pi].hand + [th[cardIndex]];
    assert |pickerHand| == |Pairs.Reduce(drawn)| by {
      assert |multiset(pickerHand)| == |multiset(Pairs.Reduce(drawn))|;
    }
    assert |targetHand| == |Splice(th, cardIndex)| by {
      assert |multiset(targetHand)| == |multiset(Splice(th, cardIndex))|;
    }
    Pairs.ReduceSize(drawn);
    var ps1 := g.players[pi := WithHand(g.players[pi], pickerHand)];
    TotalCardsUpdate(g.players, pi, WithHand(g.players[pi], pickerHand));
    TotalCardsUpdate(ps1, ti, WithHand(g.players[ti], targetHand));
  }

  lemma {:induction false} TwoActiveSeats(ps: seq<Player>)
    requires |Active(ps)| >= 2
    ensures exists i, j :: 0 <= i < j < |ps| && !ps[i].finished && !ps[j].finished
  {
    var init := ps[..|ps| - 1];
    if |Active(init)| >= 2 {
      TwoActiveSeats(init);
      var i, j :| 0 <= i < j < |init| && !init[i].finished && !init[j].finished;
      assert !ps[i].finished && !ps[j].finished;
    } else {
      assert !ps[|ps| - 1].finished;
      OneActiveSeat(init);
      var i :| 0 <= i < |init| && !init[i].finished;
      assert !ps[i].finished;
    }
  }

  lemma {:induction false} OneActiveSeat(ps: seq<Player>)
    requires |Active(ps)| >= 1
    ensures exists i :: 0 <= i < |ps| && !ps[i].finished
  {
    var init := ps[..|ps| - 1];
    if |Active(init)| >= 1 {
      OneActiveSeat(init);
      var i :| 0 <= i < |init| && !init[i].finished;
      assert !ps[i].finished;
    } else {
      assert !ps[|ps| - 1].finished;
    }
  }

  /**
   * After a pick the game either ends with the turn where it was, or the turn
   * passes to the first unfinished seat after the current one.
   */
  lemma PickTurn(g: Game, pi: nat, ti: nat, pickerHand: seq<Card>, targetHand: seq<Card>)
    requires pi < |g.players| && ti < |g.players| && g.currentTurn < |g.players|
    ensures var ps := g.players[pi := WithHand(g.players[pi], pickerHand)][ti := WithHand(g.players[ti], targetHand)];
      var after := AfterPick(g, pi, ti, pickerHand, targetHand);
      after.currentTurn < |g.players|
      && (GameEnd(g.(players := ps)).ended ==> after.currentTurn == g.currentTurn)
      && (!GameEnd(g.(players := ps)).ended ==> FirstActiveAfter(ps, g.currentTurn, after.currentTurn))
  {
    var ps := g.players[pi := WithHand(g.players[pi], pickerHand)][ti := WithHand(g.players[ti], targetHand)];
    var room := g.(players := ps);
    if !GameEnd(room).ended {
      GameEndEnded(room);
      TwoActiveSeats(ps);
      var i, j :| 0 <= i < j < |ps| && !ps[i].finished && !ps[j].finished;
      NextTurnFirstActive(ps, g.currentTurn, |Active(ps)|, i, j);
    }
  }

  /** A pick keeps a started room well formed. */
  lemma PickWellFormed(g: Game, pi: nat, ti: nat, pickerHand: seq<Card>, targetHand: seq<Card>)
    requires WellFormed(g) && g.started
    requires pi < |g.players| && ti < |g.players|
    ensures WellFormed(AfterPick(g, pi, ti, pickerHand, targetHand))
  {
    PickTurn(g, pi, ti, pickerHand, targetHand);
  }

  // ---------------------------------------------------------------------------
  // The registry

  /** The server's `games` dictionary and the handlers that change it. */
  class Registry {
    var games: map<string, Game>

    ghost predicate Valid()
      reads this
    {
      RoomsValid(games)
    }

    constructor ()
      ensures games == map[] && Valid()
    {
      games := map[];
    }

    /**
     * `getGameState`: `null` for an unknown id, else one entry per seat in seat
     * order with its id, name, flag and hand count, and the room's turn, mode
     * and result. In a valid registry the reported turn names a listed seat.
     */
    function GameState(gameId: string): (v: Option<StateView>)
      reads this
      ensures v.None? <==> gameId !in games
      ensures v.Some? ==>
        var g := games[gameId];
        |v.value.players| == |g.players|
        && (forall i :: 0 <= i < |g.players| ==>
          v.value.players[i].id == g.players[i].id && v.value.players[i].name == g.players[i].name
          && v.value.players[i].finished == g.players[i].finished && v.value.players[i].hand == g.players[i].hand
          && v.value.players[i].handCount == |g.players[i].hand|)
        && v.value.currentTurn == g.currentTurn && v.value.started == g.started && v.value.reverse == g.reverse
        && v.value.winner == g.winner && v.value.loser == g.loser
      ensures Valid() && v.Some? && |v.value.players| > 0 ==> v.value.currentTurn < |v.value.players|
    {
      if gameId in games then Some(View(games[gameId])) else None
    }

    /**
     * The id checks of `create_game`: a custom id is trimmed and checked for
     * length, then for being free (neither a stored room nor an inherited
     * name), then for its characters; a random id is used as it is.
     */
    method ResolveId(customGameId: string, randomId: string) returns (id: Result<string, Error>)
      ensures id == Failure(InvalidIdLength) <==>
        customGameId != "" && !(3 <= Utf16Length(Trim(customGameId)) <= 20)
      ensures id == Failure(IdTaken) <==>
        customGameId != "" && 3 <= Utf16Length(Trim(customGameId)) <= 20 && Occupied(games, Trim(customGameId))
      ensures id == Failure(InvalidIdChars) <==>
        customGameId != "" && 3 <= Utf16Length(Trim(customGameId)) <= 20 && !Occupied(games, Trim(customGameId))
        && !MatchesIdPattern(Trim(customGameId))
      ensures id.Failure? ==> id.error in {InvalidIdLength, IdTaken, InvalidIdChars}
      ensures id.Success? ==> id.value == RoomId(customGameId, randomId)
    {
      if customGameId != "" {
        var gameId := Trim(customGameId);
        if Utf16Length(gameId) < 3 || Utf16Length(gameId) > 20 {
          return Failure(InvalidIdLength);
        }
        if Occupied(games, gameId) {
          return Failure(IdTaken);
        }
        if !MatchesIdPattern(gameId) {
          return Failure(InvalidIdChars);
        }
        return Success(gameId);
      }
      return Success(randomId);
    }

    /**
     * `create_game`. The room is stored under the resolved id, replacing any
     * room a random id already names, and the creator is seated when the
     * trimmed name is non-empty.
     */
    method CreateGame(customGameId: string, randomId: string, reverse: bool, creatorName: string, creatorId: string)
      returns (r: Result<Reply, Error>)
      requires Valid()
      modifies this
      ensures Valid()
      ensures r == Failure(InvalidIdLength) <==>
        customGameId != "" && !(3 <= Utf16Length(Trim(customGameId)) <= 20)
      ensures r == Failure(IdTaken) <==>
        customGameId != "" && 3 <= Utf16Length(Trim(customGameId)) <= 20 && Occupied(old(games), Trim(customGameId))
      ensures r == Failure(InvalidIdChars) <==>
        customGameId != "" && 3 <= Utf16Length(Trim(customGameId)) <= 20 && !Occupied(old(games), Trim(customGameId))
        && !MatchesIdPattern(Trim(customGameId))
      ensures r.Failure? ==> r.error in {InvalidIdLength, IdTaken, InvalidIdChars} && games == old(games)
      ensures r.Success? ==>
        r.value == Created(RoomId(customGameId, randomId), if Trim(creatorName) != "" then Some(creatorId) else None)
        && games == old(games)[RoomId(customGameId, randomId) := NewRoom(reverse, creatorName, creatorId)]
    {
      var id := ResolveId(customGameId, randomId);
      if id.Failure? {
        return Failure(id.error);
      }
      var gameId := id.value;
      var room := FreshGame(reverse);
      if Trim(creatorName) != "" {
        var creator := Player(creatorId, Trim(creatorName), [], false);
        assert room.players + [creator] == [creator];
        room := room.(players := room.players + [creator]);
        r := Success(Created(gameId, Some(creatorId)));
      } else {
        r := Success(Created(gameId, None));
      }
      assert room == NewRoom(reverse, creatorName, creatorId);
      StoreValid(games, gameId, room);
      games := games[gameId := room];
    }

    /**
     * `join_game`: the room must exist, the trimmed name must be non-empty and
     * the room must have fewer than eight players. A started room can be
     * joined. The name is stored as given.
     */
    method JoinGame(gameId: string, name: string, newId: string) returns (r: Result<Reply, Error>)
      requires Valid()
      modifies this
      ensures Valid()
      ensures r == Failure(GameNotFound) <==> gameId !in old(games)
      ensures r == Failure(NameRequired) <==> gameId in old(games) && Trim(name) == ""
      ensures r == Failure(GameFull) <==>
        gameId in old(games) && Trim(name) != "" && |old(games)[gameId].players| >= 8
      ensures r.Failure? ==> r.error in {GameNotFound, NameRequired, GameFull} && games == old(games)
      ensures r.Success? ==> (r.value == Joined(newId, gameId) && gameId in old(games)
        && games == old(games)[gameId := old(games)[gameId].(players := old(games)[gameId].players + [Player(newId, name, [], false)])])
    {
      if gameId !in games {
        return Failure(GameNotFound);
      }
      if Trim(name) == "" {
        return Failure(NameRequired);
      }
      var room := games[gameId];
      if |room.players| >= 8 {
        return Failure(GameFull);
      }
      JoinWellFormed(room, Player(newId, name, [], false));
      games := games[gameId := room.(players := room.players + [Player(newId, name, [], false)])];
      r := Success(Joined(newId, gameId));
    }

    /**
     * `start_game`: a missing or started room is ignored; a player count
     * outside 2 to 8 is refused; otherwise the shuffled deck is dealt and every
     * hand discards its pairs.
     */
    method StartGame(gameId: string) returns (r: Result<Reply, Error>)
      requires Valid()
      modifies this
      ensures Valid()
      ensures gameId !in old(games) || old(games)[gameId].started ==> r == Success(Ignored)
      ensures r == Failure(BadPlayerCount) <==>
        gameId in old(games) && !old(games)[gameId].started && !(2 <= |old(games)[gameId].players| <= 8)
      ensures r.Failure? ==> r.error == BadPlayerCount
      ensures gameId in old(games) && !old(games)[gameId].started && 2 <= |old(games)[gameId].players| <= 8 ==>
        r.Success? && r.value.Started?
      ensures !r.Success? || r.value.Ignored? ==> games == old(games)
      ensures r.Success? && !r.value.Ignored? ==> (r.value.Started?
        && gameId in old(games) && 2 <= |old(games)[gameId].players| <= 8
        && multiset(r.value.deck) == multiset(FullDeck())
        && games == old(games)[gameId := GameEnd(StartedRoom(old(games)[gameId], r.value.deck)).game])
    {
      if gameId !in games || games[gameId].started {
        return Success(Ignored);
      }
      var room := games[gameId];
      if |room.players| < 2 || |room.players| > 8 {
        return Failure(BadPlayerCount);
      }
      var deck, started := StartRound(room);
      StartWellFormed(room, deck);
      games := games[gameId := started];
      r := Success(Started(deck));
    }

    /** `new_game`: reset a room to its lobby, keeping its players in order and its mode. */
    method NewGame(gameId: string) returns (r: Result<Reply, Error>)
      requires Valid()
      modifies this
      ensures Valid()
      ensures r == Failure(GameNotFound) <==> gameId !in old(games)
      ensures gameId in old(games) ==> r == Success(Reset)
      ensures r.Failure? ==> games == old(games)
      ensures r.Success? ==> (r.value == Reset && gameId in old(games)
        && games == old(games)[gameId := ClearedRoom(old(games)[gameId])])
    {
      if gameId !in games {
        return Failure(GameNotFound);
      }
      var room := ClearRoom(games[gameId]);
      ClearedRoomLobby(games[gameId]);
      games := games[gameId := room];
      r := Success(Reset);
    }

    /**
     * `leave_game`: remove the first seat with the id, repair the turn, and
     * delete the room when nobody is left. An unknown player id changes nothing.
     */
    method LeaveGame(gameId: string, playerId: string) returns (r: Result<Reply, Error>)
      requires Valid()
      modifies this
      ensures Valid()
      ensures r == Failure(GameNotFound) <==> gameId !in old(games)
      ensures r.Failure? ==> games == old(games)
      ensures gameId in old(games) ==> r == Success(LeftGame)
      ensures gameId in old(games) && FindIndex(old(games)[gameId].players, playerId) < 0 ==> games == old(games)
      ensures gameId in old(games) && 0 <= FindIndex(old(games)[gameId].players, playerId) ==>
        games == if |old(games)[gameId].players| == 1 then old(games) - {gameId}
          else old(games)[gameId := AfterLeave(old(games)[gameId], FindIndex(old(games)[gameId].players, playerId))]
    {
      if gameId !in games {
        return Failure(GameNotFound);
      }
      var room := games[gameId];
      var i := FindIndex(room.players, playerId);
      if i != -1 {
        LeaveWellFormed(room, i);
        var left := AfterLeave(room, i);
        if |left.players| == 0 {
          games := games - {gameId};
        } else {
          games := games[gameId := left];
        }
      }
      r := Success(LeftGame);
    }

    /**
     * `discard_pairs`: the player's hand loses its pairs and is shuffled, an
     * empty hand finishes the player, and the end of the game is checked. The
     * room need not be started.
     */
    method DiscardPairs(gameId: string, playerId: string) returns (r: Result<Reply, Error>)
      requires Valid()
      modifies this
      ensures Valid()
      ensures r == Failure(GameNotFound) <==> gameId !in old(games)
      ensures r == Failure(PlayerNotFound) <==> gameId in old(games) && FindIndex(old(games)[gameId].players, playerId) < 0
      ensures r.Failure? ==> r.error in {GameNotFound, PlayerNotFound} && games == old(games)
      ensures r.Success? ==> (r.value.Hand? && gameId in old(games)
        && 0 <= FindIndex(old(games)[gameId].players, playerId)
        && var i := FindIndex(old(games)[gameId].players, playerId);
        multiset(r.value.hand) == multiset(Pairs.Reduce(old(games)[gameId].players[i].hand))
        && games == old(games)[gameId := AfterDiscard(old(games)[gameId], i, r.value.hand)])
    {
      if gameId !in games {
        return Failure(GameNotFound);
      }
      var room := games[gameId];
      var i := FindIndex(room.players, playerId);
      if i < 0 {
        return Failure(PlayerNotFound);
      }
      var hand, after := DiscardHand(room, i);
      DiscardWellFormed(room, i, hand);
      games := games[gameId := after];
      r := Success(Hand(hand));
    }

    /**
     * `pick_card`: after the checks of `PickError` pass, the card moves from
     * the target to the picker, the picker discards pairs, both hands are
     * shuffled, emptied hands finish, the end is checked and, if the game goes
     * on, the turn moves to the next unfinished seat. The room need not be
     * started, nor without a result.
     */
    method PickCard(gameId: string, playerId: string, targetId: string, cardIndex: int) returns (r: Result<Reply, Error>)
      requires Valid()
      modifies this
      ensures Valid()
      ensures r == Failure(GameNotFound) <==> gameId !in old(games)
      ensures gameId in old(games) && PickError(old(games)[gameId], playerId, targetId, cardIndex).Some? ==>
        r == Failure(PickError(old(games)[gameId], playerId, targetId, cardIndex).value)
      ensures gameId in old(games) && PickError(old(games)[gameId], playerId, targetId, cardIndex).None? ==> r.Success?
      ensures r.Failure? ==> games == old(games)
      ensures r.Success? ==> (r.value.Picked? && gameId in old(games)
        && PickError(old(games)[gameId], playerId, targetId, cardIndex).None?
        && var g := old(games)[gameId];
        var pi := FindIndex(g.players, playerId);
        var ti := FindIndex(g.players, targetId);
        0 <= pi < |g.players| && 0 <= ti < |g.players| && 0 <= cardIndex < |g.players[ti].hand|
        && g.currentTurn < |g.players|
        && PickHands(g, pi, ti, cardIndex, r.value.pickerHand, r.value.targetHand)
        && games == old(games)[gameId := AfterPick(g, pi, ti, r.value.pickerHand, r.value.targetHand)])
    {
      if gameId !in games {
        return Failure(GameNotFound);
      }
      var room := games[gameId];
      var e := CheckPick(room, playerId, targetId, cardIndex);
      if e.Some? {
        return Failure(e.value);
      }
      var pi := FindIndex(room.players, playerId);
      var ti := FindIndex(room.players, targetId);
      PickAccepted(room, playerId, targetId, cardIndex);
      if !room.started {
        LobbyPickRejected(room, playerId, targetId, cardIndex);
        assert false;
      }
      var pickerHand, targetHand, after := PickFrom(room, pi, ti, cardIndex);
      PickWellFormed(room, pi, ti, pickerHand, targetHand);
      games := games[gameId := after];
      r := Success(Picked(pickerHand, targetHand));
    }
  }
}
