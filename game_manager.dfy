/** The in-memory game registry of game_manager.py (the module-level `games`
    dictionary) and its payout rule. Ticket purchases here bump the jackpot
    of the persisted game state, not the registry's own `jackpot` field. */
module GameManager {
  import opened Common
  import opened Cards
  import opened GameLogic
  import opened Transaction

  /** game_manager.py's own ticket price (COSTO_CARTELLA there is 1). */
  const TicketPrice := 1

  /** The share of the jackpot for the bingo winners and the cinquina winners. */
  const BingoShare: real := 0.9
  const CinquinaShare: real := 0.1

  /** One entry of `games`. */
  datatype Game = Game(players: Players, jackpot: int, drawnNumbers: seq<int>, gameActive: bool)

  const NewGame := Game(map[], 0, [], true)

  datatype WinKind = CinquinaWin | BingoWin

  /** What save_win records. */
  datatype WinRecord = WinRecord(user: UserId, gameId: string, kind: WinKind, amount: real)

  /** The prize per winner of a category: `share` of the jackpot split
      evenly, or 0 (and no division) when the category has no winner. */
  function Prize(jackpot: real, share: real, winners: nat): (p: real)
    ensures winners == 0 ==> p == 0.0
    ensures winners > 0 ==> p * winners as real == jackpot * share
  {
    if winners > 0 then (jackpot * share) / winners as real else 0.0
  }

  /** The wins recorded for one category: one per winner, in order, when
      the payment of the prize goes through, none otherwise. */
  function Recorded(winners: seq<UserId>, gameId: string, kind: WinKind, prize: real): seq<WinRecord>
  {
    if prize > 0.0 then seq(|winners|, i requires 0 <= i < |winners| => WinRecord(winners[i], gameId, kind, prize))
    else []
  }

  /** Sum of the recorded amounts. */
  function Total(wins: seq<WinRecord>): real
  {
    if wins == [] then 0.0 else wins[0].amount + Total(wins[1..])
  }

  lemma {:induction false} TotalAppend(a: seq<WinRecord>, b: seq<WinRecord>)
    ensures Total(a + b) == Total(a) + Total(b)
  {
    if a != [] {
      var ab := a + b;
      assert ab != [] && ab[0] == a[0];
      assert ab[1..] == a[1..] + b;
      TotalAppend(a[1..], b);
    } else {
      assert a + b == b;
    }
  }

  lemma {:induction false} TotalConstant(wins: seq<WinRecord>, amount: real)
    requires forall i :: 0 <= i < |wins| ==> wins[i].amount == amount
    ensures Total(wins) == |wins| as real * amount
  {
    if wins != [] {
      TotalConstant(wins[1..], amount);
    }
  }

  /** A category never pays out more than its share of the jackpot, and
      nothing when the jackpot is not positive. */
  lemma RecordedTotal(winners: seq<UserId>, gameId: string, kind: WinKind, jackpot: real, share: real)
    requires 0.0 <= share
    ensures var wins := Recorded(winners, gameId, kind, Prize(jackpot, share, |winners|));
            Total(wins) == (if jackpot * share > 0.0 && |winners| > 0 then jackpot * share else 0.0)
  {
    var p := Prize(jackpot, share, |winners|);
    var wins := Recorded(winners, gameId, kind, p);
    TotalConstant(wins, p);
    if |winners| > 0 && jackpot * share > 0.0 {
      assert p > 0.0;
    }
  }

  /** Everything handle_game_end pays out stays within the jackpot. */
  lemma PayoutWithinJackpot(w: Winners, gameId: string, jackpot: real)
    ensures var wins := Recorded(w.cinquina, gameId, CinquinaWin, Prize(jackpot, CinquinaShare, |w.cinquina|)) +
                        Recorded(w.bingo, gameId, BingoWin, Prize(jackpot, BingoShare, |w.bingo|));
            && Total(wins) <= (if jackpot > 0.0 then jackpot else 0.0)
            && (w.cinquina != [] && w.bingo != [] && jackpot > 0.0 ==> Total(wins) == jackpot)
  {
    RecordedTotal(w.cinquina, gameId, CinquinaWin, jackpot, CinquinaShare);
    RecordedTotal(w.bingo, gameId, BingoWin, jackpot, BingoShare);
    TotalAppend(Recorded(w.cinquina, gameId, CinquinaWin, Prize(jackpot, CinquinaShare, |w.cinquina|)),
                Recorded(w.bingo, gameId, BingoWin, Prize(jackpot, BingoShare, |w.bingo|)));
  }

  /** One payout loop of handle_game_end: pay each winner and record the
      win when the payment goes through. */
  method PayWinners(winners: seq<UserId>, gameId: string, kind: WinKind, prize: real) returns (wins: seq<WinRecord>)
    ensures |wins| == (if prize > 0.0 then |winners| else 0)
    ensures forall i :: 0 <= i < |wins| ==> wins[i] == WinRecord(winners[i], gameId, kind, prize)
  {
    wins := [];
    for i := 0 to |winners|
      invariant |wins| == (if prize > 0.0 then i else 0)
      invariant forall k :: 0 <= k < |wins| ==> wins[k] == WinRecord(winners[k], gameId, kind, prize)
    {
      var success := SendPayment(winners[i], prize, "TON");
      if success {
        wins := wins + [WinRecord(winners[i], gameId, kind, prize)];
      }
    }
  }

  /** The registry's jackpots are never written, so they stay at 0. */
  ghost predicate JackpotsZero(games: map<string, Game>)
  {
    forall id :: id in games ==> games[id].jackpot == 0
  }

  datatype JackpotResult = JackpotUpdated(total: int) | GameNotActive | JackpotRaised

  datatype PurchaseResult =
    | NoActiveGame
    | TicketsBought(count: nat, gameId: string, reportedJackpot: int)
    | PurchaseRaised                  // update_jackpot raised after the cards were added

  datatype GameEnd =
    | CheckRaised                                       // check_winners raised
    | Ended(winners: Winners, wins: seq<WinRecord>, popRaised: bool)

  class Manager {
    /** `games`: game id -> game. */
    var games: map<string, Game>
    /** The persisted game state that update_jackpot and handle_game_end read and write. */
    const store: GameStore

    constructor (store: GameStore)
      ensures games == map[] && this.store == store
    {
      games := map[];
      this.store := store;
    }

    /** create_new_game with the random id supplied: installs a fresh active
        game under `id`, replacing any game already there. */
    method CreateNewGame(id: string) returns (gameId: string)
      modifies this
      ensures gameId == id
      ensures games == old(games)[id := NewGame]
      ensures JackpotsZero(old(games)) ==> JackpotsZero(games)
    {
      games := games[id := NewGame];
      return id;
    }

    /** start_new_game: a fresh game whose only player is `user`, with no cards. */
    method StartNewGame(user: UserId, id: string) returns (gameId: string)
      modifies this
      ensures gameId == id
      ensures games == old(games)[id := NewGame.(players := map[user := []])]
      ensures JackpotsZero(old(games)) ==> JackpotsZero(games)
    {
      gameId := CreateNewGame(id);
      var g := games[gameId];
      games := games[gameId := g.(players := g.players[user := []])];
    }

    /** update_jackpot: when the persisted game is active (a missing flag
        reading as inactive), add the price of `num` tickets to its jackpot,
        a missing jackpot counting as 0. */
    method UpdateJackpot(gameId: string, num: nat) returns (r: JackpotResult)
      modifies store
      ensures r == JackpotRaised <==> old(store.data).NotADict?
      ensures r == GameNotActive <==> old(store.data).Dict? && !old(store.data).gameActive.GetOr(false)
      ensures !r.JackpotUpdated? ==> store.data == old(store.data)
      ensures r.JackpotUpdated? ==>
                && r.total == old(store.data).jackpot.GetOr(0) + num * TicketPrice
                && store.data == old(store.data).(jackpot := Some(r.total))
    {
      if store.data.NotADict? {
        return JackpotRaised;
      }
      if !store.data.gameActive.GetOr(false) {
        return GameNotActive;
      }
      var total := store.data.jackpot.GetOr(0) + num * TicketPrice;
      store.data := store.data.(jackpot := Some(total));
      return JackpotUpdated(total);
    }

    /** buy_ticket: refused unless the game exists and is active; otherwise
        the cards are added to the user's list in the registry (no per-user
        limit here), the persisted jackpot is bumped, and the reply reports
        the registry's own, unchanged, jackpot. */
    method BuyTicket(user: UserId, gameId: string, num: nat, shuffles: seq<Pools>) returns (r: PurchaseResult)
      requires |shuffles| == num
      requires forall i :: 0 <= i < |shuffles| ==> ValidPools(shuffles[i])
      modifies this, store
      ensures r == NoActiveGame <==> gameId !in old(games) || !old(games)[gameId].gameActive
      ensures r == NoActiveGame ==> games == old(games) && store.data == old(store.data)
      ensures r == PurchaseRaised <==> r != NoActiveGame && old(store.data).NotADict?
      ensures r != NoActiveGame ==>
                && gameId in games
                && var g := old(games)[gameId];
                   && games == old(games)[gameId := games[gameId]]
                   && games[gameId] == g.(players := games[gameId].players)
                   && Extended(g.players, games[gameId].players, user, num)
      ensures r.TicketsBought? ==>
                && r.count == num && r.gameId == gameId
                && r.reportedJackpot == old(games)[gameId].jackpot
                && store.data == if old(store.data).gameActive.GetOr(false)
                                 then old(store.data).(jackpot := Some(old(store.data).jackpot.GetOr(0) + num * TicketPrice))
                                 else old(store.data)
      ensures r == PurchaseRaised ==> store.data == old(store.data)
      ensures JackpotsZero(old(games)) ==> JackpotsZero(games)
      ensures JackpotsZero(old(games)) && r.TicketsBought? ==> r.reportedJackpot == 0
    {
      if gameId !in games || !games[gameId].gameActive {
        return NoActiveGame;
      }
      var g := games[gameId];
      var have := CardsOf(g.players, user);
      var cards := GenerateCards(shuffles);
      var players' := g.players[user := have + cards];
      assert players'[user][..|have|] == have;
      games := games[gameId := g.(players := players')];
      var j := UpdateJackpot(gameId, num);
      if j == JackpotRaised {
        return PurchaseRaised;
      }
      return TicketsBought(num, gameId, games[gameId].jackpot);
    }

    /** handle_game_end: collect the winners from the persisted state; when
        there is any, split the persisted jackpot (cinquina winners paid
        first, then bingo winners) and mark the game inactive; finally drop
        the game from the registry, which raises when it is not there. */
    method HandleGameEnd(gameId: string) returns (r: GameEnd)
      modifies this, store
      ensures r == CheckRaised <==>
                old(store.data).NotADict? || old(store.data).players.None? ||
                (old(store.data).drawnNumbers.None? && HasCards(old(store.data).players.value))
      ensures r == CheckRaised ==> games == old(games) && store.data == old(store.data)
      ensures r.Ended? ==>
                var d := old(store.data);
                var w := r.winners;
                var any := w.cinquina != [] || w.bingo != [];
                var jackpot := d.jackpot.GetOr(0) as real;
                && IsWinnersOf(w, d.players.value, d.drawnNumbers.GetOr([]))
                && r.wins == Recorded(w.cinquina, gameId, CinquinaWin, Prize(jackpot, CinquinaShare, |w.cinquina|)) +
                             Recorded(w.bingo, gameId, BingoWin, Prize(jackpot, BingoShare, |w.bingo|))
                && Total(r.wins) <= (if jackpot > 0.0 then jackpot else 0.0)
                && store.data == (if any then d.(gameActive := Some(false)) else d)
                && (r.popRaised <==> gameId !in old(games))
                && games == old(games) - {gameId}
    {
      var cw := store.CheckWinners();
      if cw == Raised {
        return CheckRaised;
      }
      var w := cw.value;
      var wins: seq<WinRecord> := [];
      if w.bingo != [] || w.cinquina != [] {
        var jackpot := store.data.jackpot.GetOr(0) as real;
        var bingoPrize := Prize(jackpot, BingoShare, |w.bingo|);
        var cinquinaPrize := Prize(jackpot, CinquinaShare, |w.cinquina|);
        var cinquinaWins := PayWinners(w.cinquina, gameId, CinquinaWin, cinquinaPrize);
        var bingoWins := PayWinners(w.bingo, gameId, BingoWin, bingoPrize);
        wins := cinquinaWins + bingoWins;
        assert cinquinaWins == Recorded(w.cinquina, gameId, CinquinaWin, cinquinaPrize);
        assert bingoWins == Recorded(w.bingo, gameId, BingoWin, bingoPrize);
        store.data := store.data.(gameActive := Some(false));
      }
      PayoutWithinJackpot(w, gameId, old(store.data).jackpot.GetOr(0) as real);
      var popRaised := gameId !in games;
      games := games - {gameId};
      return Ended(w, wins, popRaised);
    }
  }
}
