/** One pass of the drawing loop of game_scheduler.py (draw_numbers): repair
    a malformed state file, force-start an inactive game, check the winners,
    end the game on a bingo or once 90 numbers are out, and otherwise draw
    one number from 1..90 that has not come up yet. */
module Scheduler {
  import opened Common
  import opened Cards
  import opened GameLogic

  /** Numbers of a tombola draw: 1..90. */
  const TotalNumbers := 90

  /** The numbers still in the bag (line 51 of the loop). The ensures only
      spells out set membership for the prover; the properties of the bag
      are the lemmas below. */
  function Available(drawn: seq<int>): (avail: set<int>)
    ensures forall n :: n in avail <==> 1 <= n <= TotalNumbers && n !in drawn
  {
    var out := set x | x in drawn;
    assert forall n :: n in out <==> n in drawn;
    Range(1, TotalNumbers + 1) - out
  }

  /** A well-formed draw: distinct numbers between 1 and 90. */
  predicate DrawnValid(drawn: seq<int>)
  {
    NoDup(drawn) && forall i :: 0 <= i < |drawn| ==> 1 <= drawn[i] <= TotalNumbers
  }

  /** The stored draw, when there is one, is well formed. */
  predicate StoreDrawnValid(s: Store)
  {
    s.Dict? && s.drawnNumbers.Some? ==> DrawnValid(s.drawnNumbers.value)
  }

  /** With fewer than 90 numbers drawn the bag is never empty, so the
      "no number available" branch of the loop cannot be taken. */
  lemma SomeNumberAvailable(drawn: seq<int>)
    requires |drawn| < TotalNumbers
    ensures Available(drawn) != {}
  {
    var out := set x | x in drawn;
    SeqSetSize(drawn);
    RangeSize(1, TotalNumbers + 1);
    if Available(drawn) == {} {
      assert Range(1, TotalNumbers + 1) <= out;
      SubsetSize(Range(1, TotalNumbers + 1), out);
      assert false;
    }
  }

  /** In a well-formed draw at most 90 numbers are out, and the 90-number
      stop is reached exactly when every number of the bag has come up. */
  lemma AllDrawnIffNoneLeft(drawn: seq<int>)
    requires DrawnValid(drawn)
    ensures |drawn| <= TotalNumbers
    ensures |drawn| >= TotalNumbers <==> Available(drawn) == {}
  {
    NoDupInRange(drawn, 1, TotalNumbers + 1);
    if Available(drawn) == {} {
      forall n | 1 <= n < TotalNumbers + 1 ensures n in drawn {
        assert n !in Available(drawn);
      }
    }
  }

  /** Appending a number from the bag keeps the draw well formed. */
  lemma DrawKeepsValid(drawn: seq<int>, n: int)
    requires DrawnValid(drawn)
    requires n in Available(drawn)
    ensures DrawnValid(drawn + [n])
    ensures |drawn + [n]| <= TotalNumbers
  {
    var d := drawn + [n];
    forall i, j | 0 <= i < j < |d| ensures d[i] != d[j] {
      if j == |drawn| {
        assert d[i] == drawn[i];
      } else {
        assert d[i] == drawn[i] && d[j] == drawn[j];
      }
    }
    assert forall i :: 0 <= i < |d| ==> 1 <= d[i] <= TotalNumbers by {
      forall i | 0 <= i < |d| ensures 1 <= d[i] <= TotalNumbers {
        if i < |drawn| {
          assert d[i] == drawn[i];
        }
      }
    }
    NoDupInRange(d, 1, TotalNumbers + 1);
  }

  /** During a well-formed draw over well-formed cards, every bingo winner
      is also a cinquina winner. */
  lemma BingoWinnersHaveCinquina(w: Winners, players: Players, drawn: seq<int>)
    requires IsWinnersOf(w, players, drawn)
    requires DrawnValid(drawn)
    requires CardsValid(players)
    ensures forall u :: u in w.bingo ==> u in w.cinquina
  {
    assert 0 !in drawn;
    forall u | u in w.bingo ensures u in w.cinquina {
      var i :| 0 <= i < |players[u]| && CheckBingo(players[u][i], drawn);
      BingoImpliesCinquina(players[u][i], drawn);
    }
  }

  /** What one pass of the loop did. */
  datatype TickStatus =
    | Restarted(start: StartResult)    // the game was inactive: forced active, then start_game
    | TickRaised                       // a key was missing; the loop's handler caught it
    | BingoEnded(winners: Winners)
    | AllDrawn
    | Drew(number: int)

  /** The state the repair writes over a file that is not an object or has
      no `game_active`, once the forced start has marked it active. */
  const RepairedActive: Store := Dict(None, Some([]), Some(true), None, None)

  /** One iteration of draw_numbers' loop on the stored state. */
  method Tick(store: GameStore) returns (r: TickStatus)
    modifies store
    // a malformed file is replaced by one without `players`, which the
    // forced start_game then fails to read
    ensures old(store.data).NotADict? || old(store.data).gameActive.None? ==>
              r == Restarted(StartRaised) && store.data == RepairedActive
    // an inactive game is forced active with an empty draw, then started
    ensures old(store.data).Dict? && old(store.data).gameActive == Some(false) ==>
              var d := old(store.data).(gameActive := Some(true), drawnNumbers := Some([]));
              var handOver := d.nextGamePlayers.Some? && d.nextGamePlayers.value != map[];
              && r.Restarted?
              && (r.start == StartRaised <==> d.players.None?)
              && (r.start == Started <==> d.players.Some? && (d.players.value != map[] || d.nextGamePlayers.Some?))
              && (r.start != Started ==> store.data == d)
              && (r.start == Started ==>
                    store.data == d.(players := if handOver then d.nextGamePlayers else d.players,
                                     nextGamePlayers := if handOver then Some(map[]) else d.nextGamePlayers))
    // an active game whose draw or players cannot be read: nothing happens
    ensures old(store.data).Dict? && old(store.data).gameActive == Some(true) &&
            (old(store.data).drawnNumbers.None? || old(store.data).players.None?) ==>
              r == TickRaised && store.data == old(store.data)
    // an active, readable game
    ensures old(store.data).Dict? && old(store.data).gameActive == Some(true) &&
            old(store.data).drawnNumbers.Some? && old(store.data).players.Some? ==>
              var d := old(store.data);
              var drawn := d.drawnNumbers.value;
              var bingo := HasBingoWinner(d.players.value, drawn);
              && (r.BingoEnded? <==> bingo)
              && (r.BingoEnded? ==> IsWinnersOf(r.winners, d.players.value, drawn))
              && (r == AllDrawn <==> !bingo && |drawn| >= TotalNumbers)
              && (r.BingoEnded? || r == AllDrawn ==> store.data == d.(gameActive := Some(false)))
              && (r.Drew? <==> !bingo && |drawn| < TotalNumbers)
              && (r.Drew? ==> r.number in Available(drawn) &&
                              store.data == d.(drawnNumbers := Some(drawn + [r.number])))
    // the draw stays well formed
    ensures StoreDrawnValid(old(store.data)) ==> StoreDrawnValid(store.data)
  {
    if store.data.NotADict? || store.data.gameActive.None? {
      store.data := Dict(None, Some([]), Some(false), None, None);
    }
    if !store.data.gameActive.value {
      store.data := store.data.(gameActive := Some(true), drawnNumbers := Some([]));
      var s := store.StartGame();
      return Restarted(s);
    }
    if store.data.drawnNumbers.None? {
      // reading the draw's length for the progress message raises
      return TickRaised;
    }
    var w := store.CheckWinners();
    if w == Raised {
      return TickRaised;
    }
    BingoListNonEmpty(w.value, old(store.data).players.value, old(store.data).drawnNumbers.value);
    if w.value.bingo != [] {
      return BingoEnded(w.value);
    }
    var drawn := store.data.drawnNumbers.value;
    if |drawn| >= TotalNumbers {
      store.data := store.data.(gameActive := Some(false));
      return AllDrawn;
    }
    SomeNumberAvailable(drawn);
    var n :| n in Available(drawn);
    if StoreDrawnValid(store.data) {
      DrawKeepsValid(drawn, n);
    }
    store.data := store.data.(drawnNumbers := Some(drawn + [n]));
    return Drew(n);
  }
}
