/**
 * A game room's table: its players and flags, the end-of-game rule
 * `checkGameEnd`, the two cyclic scans over the seats that `pick_card` runs,
 * and the `getGameState` projection.
 */
module Table {
  import opened Wrappers
  import opened Cards

  datatype Player = Player(id: string, name: string, hand: seq<Card>, finished: bool)

  /** A room. `winner` and `loser` hold a player's name or are `null` (`None`). */
  datatype Game = Game(
    players: seq<Player>,
    started: bool,
    currentTurn: nat,
    reverse: bool,
    loser: Option<string>,
    winner: Option<string>)

  /** The room `create_game` stores. */
  function FreshGame(reverse: bool): Game {
    Game([], false, 0, reverse, None, None)
  }

  /** JavaScript truthiness of `null` or a string: only a non-empty string is true. */
  predicate Truthy(o: Option<string>) {
    o.Some? && o.value != ""
  }

  /** `game.winner || game.loser`. */
  predicate Concluded(g: Game) {
    Truthy(g.winner) || Truthy(g.loser)
  }

  /** `hand.some(c => c.suit === 'Joker')`. */
  predicate HasJoker(hand: seq<Card>) {
    exists c :: c in hand && IsJoker(c)
  }

  /** `players.filter(p => !p.finished)`. */
  function Active(ps: seq<Player>): (a: seq<Player>)
    ensures |a| <= |ps|
    ensures forall p :: p in a ==> p in ps && !p.finished
  {
    if ps == [] then []
    else Active(ps[..|ps| - 1]) + (if ps[|ps| - 1].finished then [] else [ps[|ps| - 1]])
  }

  /** `players.findIndex(p => p.id === id)`: the first seat with that id, or -1. */
  function FindIndex(ps: seq<Player>, id: string): (i: int)
    ensures -1 <= i < |ps|
    ensures 0 <= i ==> ps[i].id == id
    ensures forall j :: 0 <= j < |ps| && (i < 0 || j < i) ==> ps[j].id != id
  {
    if ps == [] then -1
    else if ps[0].id == id then 0
    else
      var k := FindIndex(ps[1..], id);
      if k < 0 then -1 else k + 1
  }

  /** The first seat whose hand holds a joker, or `|ps|` when there is none. */
  function FindJoker(ps: seq<Player>): (i: nat)
    ensures i <= |ps|
    ensures i < |ps| ==> HasJoker(ps[i].hand)
    ensures forall j :: 0 <= j < i ==> !HasJoker(ps[j].hand)
  {
    if ps == [] then 0
    else if HasJoker(ps[0].hand) then 0
    else 1 + FindJoker(ps[1..])
  }

  /** What `checkGameEnd` returns, and the game as it leaves it. */
  datatype EndCheck = EndCheck(ended: bool, game: Game)

  /**
   * `checkGameEnd`: a room that already has a result stays over; with one
   * unfinished player the result follows the joker and the mode; with none,
   * the first joker holder gets the result; otherwise play goes on.
   */
  function GameEnd(g: Game): (r: EndCheck)
    ensures r.game == g.(winner := r.game.winner, loser := r.game.loser)
    ensures !r.ended ==> r.game == g
  {
    if Concluded(g) then EndCheck(true, g)
    else
      var active := Active(g.players);
      if |active| == 1 then
        var last := active[0];
        if g.reverse then
          EndCheck(true, if HasJoker(last.hand) then g.(winner := Some(last.name)) else g)
        else if HasJoker(last.hand) then
          EndCheck(true, g.(loser := Some(last.name)))
        else
          EndCheck(true, g.(winner := Some(last.name)))
      else if |active| == 0 then
        var k := FindJoker(g.players);
        if k < |g.players| then
          var name := g.players[k].name;
          EndCheck(true, if g.reverse then g.(winner := Some(name)) else g.(loser := Some(name)))
        else
          EndCheck(true, g)
      else
        EndCheck(false, g)
  }

  /** `i` is the only unfinished seat. */
  predicate LastStanding(ps: seq<Player>, i: nat) {
    i < |ps| && !ps[i].finished && forall j :: 0 <= j < |ps| && j != i ==> ps[j].finished
  }

  /** Every seat is finished. */
  predicate AllFinished(ps: seq<Player>) {
    forall j :: 0 <= j < |ps| ==> ps[j].finished
  }

  lemma {:induction false} ActiveLast(ps: seq<Player>, i: nat)
    requires LastStanding(ps, i)
    ensures Active(ps) == [ps[i]]
  {
    var init := ps[..|ps| - 1];
    if i == |ps| - 1 {
      ActiveNone(init);
    } else {
      ActiveLast(init, i);
    }
  }

  lemma {:induction false} ActiveNone(ps: seq<Player>)
    requires AllFinished(ps)
    ensures Active(ps) == []
  {
    if ps != [] {
      ActiveNone(ps[..|ps| - 1]);
    }
  }

  lemma {:induction false} ActiveTwo(ps: seq<Player>, i: nat, j: nat)
    requires i < j < |ps| && !ps[i].finished && !ps[j].finished
    ensures |Active(ps)| >= 2
  {
    var init := ps[..|ps| - 1];
    if j < |ps| - 1 {
      ActiveTwo(init, i, j);
    } else {
      ActiveOne(init, i);
    }
  }

  lemma {:induction false} ActiveOne(ps: seq<Player>, i: nat)
    requires i < |ps| && !ps[i].finished
    ensures |Active(ps)| >= 1
  {
    var init := ps[..|ps| - 1];
    if i < |ps| - 1 {
      ActiveOne(init, i);
    }
  }

  /** Once a winner or loser is set, `checkGameEnd` reports the end and changes nothing. */
  lemma GameEndWhenConcluded(g: Game)
    requires Concluded(g)
    ensures GameEnd(g) == EndCheck(true, g)
  {
  }

  /** Normal mode, one player left: that player loses with the joker and wins without it. */
  lemma GameEndLastNormal(g: Game, i: nat)
    requires !Concluded(g) && !g.reverse && LastStanding(g.players, i)
    ensures GameEnd(g).ended
    ensures GameEnd(g).game == if HasJoker(g.players[i].hand)
      then g.(loser := Some(g.players[i].name))
      else g.(winner := Some(g.players[i].name))
  {
    ActiveLast(g.players, i);
  }

  /** Reverse mode, one player left: that player wins with the joker; without it there is no result. */
  lemma GameEndLastReverse(g: Game, i: nat)
    requires !Concluded(g) && g.reverse && LastStanding(g.players, i)
    ensures GameEnd(g).ended
    ensures GameEnd(g).game == if HasJoker(g.players[i].hand)
      then g.(winner := Some(g.players[i].name))
      else g
  {
    ActiveLast(g.players, i);
  }

  /**
   * Everybody finished: the first seat holding a joker wins (reverse mode) or
   * loses (normal mode); without a joker there is no result.
   */
  lemma GameEndAllFinished(g: Game, k: nat)
    requires !Concluded(g) && AllFinished(g.players)
    requires k <= |g.players| && (k < |g.players| ==> HasJoker(g.players[k].hand))
    requires forall j :: 0 <= j < k ==> !HasJoker(g.players[j].hand)
    ensures GameEnd(g).ended
    ensures GameEnd(g).game ==
      if k == |g.players| then g
      else if g.reverse then g.(winner := Some(g.players[k].name))
      else g.(loser := Some(g.players[k].name))
  {
    ActiveNone(g.players);
  }

  /** Two unfinished players and no result yet: the game goes on, untouched. */
  lemma GameEndUndecided(g: Game, i: nat, j: nat)
    requires !Concluded(g)
    requires i < j < |g.players| && !g.players[i].finished && !g.players[j].finished
    ensures GameEnd(g) == EndCheck(false, g)
  {
    ActiveTwo(g.players, i, j);
  }

  /** `checkGameEnd` reports the end exactly when a result exists or fewer than two players are unfinished. */
  lemma GameEndEnded(g: Game)
    ensures GameEnd(g).ended <==> Concluded(g) || |Active(g.players)| < 2
  {
  }

  /** A second `checkGameEnd` agrees with the first and changes nothing more. */
  lemma {:induction false} GameEndIdempotent(g: Game)
    ensures GameEnd(GameEnd(g).game) == GameEnd(g)
  {
    var r := GameEnd(g);
    if !Concluded(g) && r.game != g {
      var last := Active(g.players);
      if |last| == 1 {
        assert Truthy(r.game.winner) || Truthy(r.game.loser) || Active(r.game.players) == last;
      }
    }
  }

  // ---------------------------------------------------------------------------
  // Walking round the table

  /** `(i + 1) % n`: the next seat. */
  function Succ(i: nat, n: nat): (j: nat)
    requires i < n
    ensures j < n
    ensures j == if i + 1 < n then i + 1 else 0
  {
    (i + 1) % n
  }

  /** The number of steps from seat `i` forward to seat `s` round a table of `n`. */
  function Dist(i: nat, s: nat, n: nat): nat
    requires i < n
  {
    if i <= s then s - i else s + n - i
  }

  /** The seat `k` steps after seat `i`. */
  function Step(i: nat, k: nat, n: nat): (j: nat)
    requires i < n
    ensures j < n
    decreases k
  {
    if k == 0 then i else Step(Succ(i, n), k - 1, n)
  }

  lemma {:induction false} StepLast(i: nat, k: nat, n: nat)
    requires i < n
    ensures Step(i, k + 1, n) == Succ(Step(i, k, n), n)
    decreases k
  {
    if k > 0 {
      StepLast(Succ(i, n), k - 1, n);
    }
  }

  /** Walking `Dist(i, s, n)` steps from `i` reaches `s`. */
  lemma {:induction false} StepDist(i: nat, s: nat, n: nat)
    requires i < n && s < n
    ensures Step(i, Dist(i, s, n), n) == s
    decreases Dist(i, s, n)
  {
    if i != s {
      StepDist(Succ(i, n), s, n);
    }
  }

  /**
   * The loop `while (players[v].finished && v !== stop) v = (v + 1) % N`
   * started at `from`.
   */
  function SkipFinished(ps: seq<Player>, from: nat, stop: nat): (v: nat)
    requires from < |ps| && stop < |ps|
    ensures v < |ps|
    ensures v == stop || !ps[v].finished
    ensures Dist(v, stop, |ps|) <= Dist(from, stop, |ps|)
    ensures ps[from].finished && from != stop ==> v != from
    decreases Dist(from, stop, |ps|)
  {
    if !ps[from].finished || from == stop then from
    else SkipFinished(ps, Succ(from, |ps|), stop)
  }

  /** Every seat the scan passes over is finished, and it stops at the first unfinished one. */
  lemma {:induction false} SkipFinishedFirst(ps: seq<Player>, from: nat, stop: nat)
    requires from < |ps| && stop < |ps|
    ensures var v := SkipFinished(ps, from, stop);
      v == Step(from, Dist(from, stop, |ps|) - Dist(v, stop, |ps|), |ps|)
      && forall k :: 0 <= k < Dist(from, stop, |ps|) - Dist(v, stop, |ps|) ==> ps[Step(from, k, |ps|)].finished
    decreases Dist(from, stop, |ps|)
  {
    if ps[from].finished && from != stop {
      var next := Succ(from, |ps|);
      SkipFinishedFirst(ps, next, stop);
      var v := SkipFinished(ps, from, stop);
      var d := Dist(from, stop, |ps|) - Dist(v, stop, |ps|);
      assert Dist(next, stop, |ps|) == Dist(from, stop, |ps|) - 1;
      forall k | 0 <= k < d
        ensures ps[Step(from, k, |ps|)].finished
      {
        if k > 0 {
          assert Step(from, k, |ps|) == Step(next, k - 1, |ps|);
        }
      }
    }
  }

  /** The `pick_card` loop that looks for the next unfinished seat after the picker's. */
  method NextAvailable(ps: seq<Player>, picker: nat) returns (v: nat)
    requires picker < |ps|
    ensures v == SkipFinished(ps, Succ(picker, |ps|), picker)
  {
    v := Succ(picker, |ps|);
    while ps[v].finished && v != picker
      invariant v < |ps|
      invariant SkipFinished(ps, v, picker) == SkipFinished(ps, Succ(picker, |ps|), picker)
      decreases Dist(v, picker, |ps|)
    {
      v := (v + 1) % |ps|;
    }
  }

  /**
   * The do-while loop that advances the turn: step to the next seat, give up
   * after `N` steps, and go on while the seat is finished and more than one
   * player is active. `attempts` steps have been taken up to seat `t`.
   */
  function TurnScan(ps: seq<Player>, t: nat, attempts: nat, activeCount: nat): (v: nat)
    requires t < |ps| && 1 <= attempts <= |ps|
    ensures v < |ps|
    decreases |ps| - attempts
  {
    if attempts >= |ps| || !(ps[t].finished && activeCount > 1) then t
    else TurnScan(ps, Succ(t, |ps|), attempts + 1, activeCount)
  }

  /** The seat that gets the turn after seat `ct`. */
  function NextTurn(ps: seq<Player>, ct: nat, activeCount: nat): nat
    requires ct < |ps|
  {
    TurnScan(ps, Succ(ct, |ps|), 1, activeCount)
  }

  method AdvanceTurn(ps: seq<Player>, ct: nat, activeCount: nat) returns (t: nat)
    requires ct < |ps|
    ensures t == NextTurn(ps, ct, activeCount)
  {
    var attempts := 0;
    t := ct;
    t := (t + 1) % |ps|;
    attempts := attempts + 1;
    while attempts < |ps| && ps[t].finished && activeCount > 1
      invariant t < |ps| && 1 <= attempts <= |ps|
      invariant TurnScan(ps, t, attempts, activeCount) == NextTurn(ps, ct, activeCount)
      decreases |ps| - attempts
    {
      t := (t + 1) % |ps|;
      attempts := attempts + 1;
    }
  }

  /** Seat `v` is the first unfinished seat after `ct`, going round the table. */
  predicate FirstActiveAfter(ps: seq<Player>, ct: nat, v: nat)
    requires ct < |ps|
  {
    exists k :: 1 <= k < |ps| && v == Step(ct, k, |ps|) && !ps[v].finished
      && forall m :: 1 <= m < k ==> ps[Step(ct, m, |ps|)].finished
  }

  lemma {:induction false} TurnScanFirst(ps: seq<Player>, ct: nat, a: nat, activeCount: nat, i: nat)
    requires ct < |ps| && 1 <= a <= |ps| && activeCount > 1
    requires i < |ps| && i != ct && !ps[i].finished
    requires forall j :: 1 <= j < a ==> ps[Step(ct, j, |ps|)].finished
    ensures FirstActiveAfter(ps, ct, TurnScan(ps, Step(ct, a, |ps|), a, activeCount))
    decreases |ps| - a
  {
    var t := Step(ct, a, |ps|);
    var v := TurnScan(ps, t, a, activeCount);
    if a >= |ps| || !ps[t].finished {
      if a >= |ps| {
        StepDist(ct, i, |ps|);
        assert false;
      }
      assert v == Step(ct, a, |ps|);
      assert FirstActiveAfter(ps, ct, v);
    } else {
      StepLast(ct, a, |ps|);
      TurnScanFirst(ps, ct, a + 1, activeCount, i);
      assert v == TurnScan(ps, Step(ct, a + 1, |ps|), a + 1, activeCount);
    }
  }

  /**
   * With at least two unfinished players, the turn passes to the first
   * unfinished seat after `ct`, fewer than `N` steps on.
   */
  lemma NextTurnFirstActive(ps: seq<Player>, ct: nat, activeCount: nat, i: nat, j: nat)
    requires ct < |ps| && activeCount > 1
    requires i < j < |ps| && !ps[i].finished && !ps[j].finished
    ensures FirstActiveAfter(ps, ct, NextTurn(ps, ct, activeCount))
  {
    assert Step(ct, 1, |ps|) == Succ(ct, |ps|);
    var other := if i != ct then i else j;
    TurnScanFirst(ps, ct, 1, activeCount, other);
  }

  // ---------------------------------------------------------------------------
  // Card totals and the projection sent to clients

  /** The number of cards in all hands together. */
  function TotalCards(ps: seq<Player>): nat {
    if ps == [] then 0 else TotalCards(ps[..|ps| - 1]) + |ps[|ps| - 1].hand|
  }

  /** Replacing one seat changes the total by the difference of the two hands. */
  lemma {:induction false} TotalCardsUpdate(ps: seq<Player>, i: nat, p: Player)
    requires i < |ps|
    ensures TotalCards(ps[i := p]) + |ps[i].hand| == TotalCards(ps) + |p.hand|
  {
    var init := ps[..|ps| - 1];
    if i < |ps| - 1 {
      TotalCardsUpdate(init, i, p);
      assert ps[i := p][..|ps| - 1] == init[i := p];
    } else {
      assert ps[i := p][..|ps| - 1] == init;
    }
  }

  datatype SeatView = SeatView(id: string, name: string, finished: bool, handCount: nat, hand: seq<Card>)

  datatype StateView = StateView(
    players: seq<SeatView>,
    currentTurn: nat,
    reverse: bool,
    started: bool,
    loser: Option<string>,
    winner: Option<string>)

  function SeatOf(p: Player): SeatView {
    SeatView(p.id, p.name, p.finished, |p.hand|, p.hand)
  }

  /** The `getGameState` projection of a room. */
  function View(g: Game): (v: StateView)
    ensures |v.players| == |g.players|
    ensures forall i :: 0 <= i < |g.players| ==>
      v.players[i].handCount == |v.players[i].hand| && v.players[i].hand == g.players[i].hand
      && v.players[i].id == g.players[i].id && v.players[i].finished == g.players[i].finished
  {
    StateView(seq(|g.players|, i requires 0 <= i < |g.players| => SeatOf(g.players[i])),
      g.currentTurn, g.reverse, g.started, g.loser, g.winner)
  }
}
