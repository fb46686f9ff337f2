/** The persisted game state (data/game_data.json) and the operations of
    game_logic.py that change it: starting a game, buying cards and
    collecting the winners. The JSON file is the field `data` of a
    `GameStore`; reading and writing it are reads and assignments. */
module GameLogic {
  import opened Common
  import opened Cards

  /** buy_ticket's per-user card limit. */
  const MaxCards := 24

  /** user id -> the user's cards, in purchase order. */
  type Players = map<UserId, seq<Card>>

  /** What the state file holds: a JSON object whose keys may each be
      missing, or some other JSON value. */
  datatype Store =
    | NotADict
    | Dict(players: Option<Players>, drawnNumbers: Option<seq<int>>, gameActive: Option<bool>,
           nextGamePlayers: Option<Players>, jackpot: Option<int>)

  /** The state load_game_data writes when the file is missing or unreadable. */
  const DefaultStore: Store := Dict(Some(map[]), Some([]), Some(false), None, None)

  function CardsOf(players: Players, user: UserId): seq<Card>
  {
    if user in players then players[user] else []
  }

  /** Some card of the list has a cinquina. */
  predicate AnyCinquina(cards: seq<Card>, drawn: seq<int>)
  {
    exists i :: 0 <= i < |cards| && CheckCinquina(cards[i], drawn)
  }

  /** Some card of the list has a bingo. */
  predicate AnyBingo(cards: seq<Card>, drawn: seq<int>)
  {
    exists i :: 0 <= i < |cards| && CheckBingo(cards[i], drawn)
  }

  predicate HasCards(players: Players)
  {
    exists u :: u in players && players[u] != []
  }

  predicate HasBingoWinner(players: Players, drawn: seq<int>)
  {
    exists u :: u in players && AnyBingo(players[u], drawn)
  }

  /** check_winners' two lists ({"Cinquina": [...], "Bingo": [...]}). */
  datatype Winners = Winners(cinquina: seq<UserId>, bingo: seq<UserId>)

  /** `w` lists every user with a winning card once per category, and no one else. */
  ghost predicate IsWinnersOf(w: Winners, players: Players, drawn: seq<int>)
  {
    && NoDup(w.cinquina) && NoDup(w.bingo)
    && (forall u :: u in w.cinquina <==> u in players && AnyCinquina(players[u], drawn))
    && (forall u :: u in w.bingo <==> u in players && AnyBingo(players[u], drawn))
  }

  lemma BingoListNonEmpty(w: Winners, players: Players, drawn: seq<int>)
    requires IsWinnersOf(w, players, drawn)
    ensures w.bingo != [] <==> HasBingoWinner(players, drawn)
  {
    if w.bingo != [] {
      assert w.bingo[0] in w.bingo;
    }
  }

  /** The loops of check_winners: for every user and every card of theirs,
      append the user to a category's list when the card wins it and the
      user is not listed yet. Users are visited in an unspecified order (a
      dictionary's order). */
  method CollectWinners(players: Players, drawn: seq<int>) returns (w: Winners)
    ensures IsWinnersOf(w, players, drawn)
  {
    var cinquina: seq<UserId> := [];
    var bingo: seq<UserId> := [];
    var todo := players.Keys;
    while todo != {}
      invariant todo <= players.Keys
      invariant NoDup(cinquina) && NoDup(bingo)
      invariant forall v :: v in cinquina <==> v in players && v !in todo && AnyCinquina(players[v], drawn)
      invariant forall v :: v in bingo <==> v in players && v !in todo && AnyBingo(players[v], drawn)
      decreases todo
    {
      var u :| u in todo;
      var cards := players[u];
      for i := 0 to |cards|
        invariant NoDup(cinquina) && NoDup(bingo)
        invariant forall v :: v in cinquina <==>
                    (v in players && v !in todo && AnyCinquina(players[v], drawn)) ||
                    (v == u && AnyCinquina(cards[..i], drawn))
        invariant forall v :: v in bingo <==>
                    (v in players && v !in todo && AnyBingo(players[v], drawn)) ||
                    (v == u && AnyBingo(cards[..i], drawn))
      {
        assert forall j :: 0 <= j < i ==> cards[..i + 1][j] == cards[..i][j];
        assert cards[..i + 1][i] == cards[i];
        if CheckCinquina(cards[i], drawn) && u !in cinquina {
          cinquina := cinquina + [u];
        }
        if CheckBingo(cards[i], drawn) && u !in bingo {
          bingo := bingo + [u];
        }
      }
      assert cards[..|cards|] == cards;
      todo := todo - {u};
    }
    w := Winners(cinquina, bingo);
  }

  /** `after` is `before` with `num` well-formed cards appended to `user`'s
      list (created empty if missing) and every other entry untouched. */
  ghost predicate Extended(before: Players, after: Players, user: UserId, num: nat)
  {
    var old_ := CardsOf(before, user);
    && user in after
    && |after[user]| == |old_| + num
    && after[user][..|old_|] == old_
    && (forall k :: |old_| <= k < |after[user]| ==> ValidCard(after[user][k]))
    && after - {user} == before - {user}
  }

  /** Every card held by every player is well formed. */
  ghost predicate CardsValid(players: Players)
  {
    forall u, i :: u in players && 0 <= i < |players[u]| ==> ValidCard(players[u][i])
  }

  /** Buying cards keeps every card of the bucket well formed. */
  lemma ExtendedKeepsValid(before: Players, after: Players, user: UserId, num: nat)
    requires CardsValid(before)
    requires Extended(before, after, user, num)
    ensures CardsValid(after)
  {
    forall u, i | u in after && 0 <= i < |after[u]| ensures ValidCard(after[u][i]) {
      if u == user {
        var old_ := CardsOf(before, user);
        if i < |old_| {
          assert after[user][..|old_|][i] == after[user][i];
        }
      } else {
        assert u in after - {user};
        assert u in before && before[u] == after[u] by {
          assert (after - {user})[u] == (before - {user})[u];
        }
      }
    }
  }

  /** The bucket buy_ticket adds to: the next game's players while a game
      is running (an absent key counts as empty), the current ones otherwise. */
  function Target(d: Store): Players
    requires d.Dict? && d.gameActive.Some?
  {
    if d.gameActive.value then d.nextGamePlayers.GetOr(map[]) else d.players.GetOr(map[])
  }

  datatype StartResult = Started | NoPlayers | StartRaised

  datatype BuyResult =
    | Bought(cards: seq<Card>)          // current game; the reply shows these cards
    | BoughtForNextGame(count: nat)     // a game is running: cards kept for the next one
    | LimitExceeded(nextGame: bool)
    | BuyRaised

  class GameStore {
    /** The content of data/game_data.json. */
    var data: Store

    /** load_game_data on a missing file: the default state. */
    constructor ()
      ensures data == DefaultStore
    {
      data := DefaultStore;
    }

    /** start_game: with players registered or a `next_game_players` key
        present, clear the drawn numbers, mark the game active and, when the
        next game's players are non-empty, make them the players (replacing,
        not merging) and empty the next-game bucket. */
    method StartGame() returns (r: StartResult)
      modifies this
      ensures r == StartRaised <==> old(data).NotADict? || old(data).players.None?
      ensures r == Started <==>
                old(data).Dict? && old(data).players.Some? &&
                (old(data).players.value != map[] || old(data).nextGamePlayers.Some?)
      ensures r != Started ==> data == old(data)
      ensures r == Started ==>
                var d := old(data);
                var handOver := d.nextGamePlayers.Some? && d.nextGamePlayers.value != map[];
                data == d.(drawnNumbers := Some([]), gameActive := Some(true),
                           players := if handOver then d.nextGamePlayers else d.players,
                           nextGamePlayers := if handOver then Some(map[]) else d.nextGamePlayers)
    {
      if data.NotADict? || data.players.None? {
        return StartRaised;
      }
      if data.players.value != map[] || data.nextGamePlayers.Some? {
        data := data.(drawnNumbers := Some([]), gameActive := Some(true));
        if data.nextGamePlayers.Some? && data.nextGamePlayers.value != map[] {
          data := data.(players := data.nextGamePlayers, nextGamePlayers := Some(map[]));
        }
        return Started;
      }
      return NoPlayers;
    }

    /** buy_ticket: while a game is active the cards go to
        `next_game_players`, otherwise to `players`; more than 24 cards for
        the user in that bucket is refused before anything is saved. */
    method BuyTicket(user: UserId, num: nat, shuffles: seq<Pools>) returns (r: BuyResult)
      requires |shuffles| == num
      requires forall i :: 0 <= i < |shuffles| ==> ValidPools(shuffles[i])
      modifies this
      ensures r == BuyRaised <==>
                old(data).NotADict? || old(data).gameActive.None? ||
                (old(data).gameActive == Some(false) && old(data).players.None?)
      ensures r.LimitExceeded? <==>
                r != BuyRaised && |CardsOf(Target(old(data)), user)| + num > MaxCards
      ensures r.LimitExceeded? ==> r.nextGame == old(data).gameActive.value
      ensures r == BuyRaised || r.LimitExceeded? ==> data == old(data)
      ensures r.BoughtForNextGame? ==>
                && old(data).gameActive == Some(true) && r.count == num
                && data.Dict? && data.nextGamePlayers.Some?
                && Extended(Target(old(data)), data.nextGamePlayers.value, user, num)
                && data == old(data).(nextGamePlayers := data.nextGamePlayers)
      ensures r.Bought? ==>
                && old(data).gameActive == Some(false)
                && data.Dict? && data.players.Some?
                && Extended(Target(old(data)), data.players.value, user, num)
                && data.players.value[user] == CardsOf(Target(old(data)), user) + r.cards
                && data == old(data).(players := data.players)
    {
      if data.NotADict? || data.gameActive.None? {
        return BuyRaised;
      }
      if data.gameActive.value {
        var next := data.nextGamePlayers.GetOr(map[]);
        var have := CardsOf(next, user);
        if |have| + num > MaxCards {
          return LimitExceeded(true);
        }
        var cards := GenerateCards(shuffles);
        var next' := next[user := have + cards];
        assert next'[user][..|have|] == have;
        data := data.(nextGamePlayers := Some(next'));
        return BoughtForNextGame(num);
      }
      if data.players.None? {
        return BuyRaised;
      }
      var players := data.players.value;
      var have := CardsOf(players, user);
      if |have| + num > MaxCards {
        return LimitExceeded(false);
      }
      var cards := GenerateCards(shuffles);
      var players' := players[user := have + cards];
      assert players'[user][..|have|] == have;
      data := data.(players := Some(players'));
      return Bought(cards);
    }

    /** check_winners: collect the winners and, when someone has a bingo,
        mark the game inactive and save. Reading `players` (or, once a card
        is looked at, `drawn_numbers`) from a state that lacks it raises. */
    method CheckWinners() returns (r: Outcome<Winners>)
      modifies this
      ensures r == Raised <==>
                old(data).NotADict? || old(data).players.None? ||
                (old(data).drawnNumbers.None? && HasCards(old(data).players.value))
      ensures r == Raised ==> data == old(data)
      ensures r.Ok? ==> IsWinnersOf(r.value, old(data).players.value, old(data).drawnNumbers.GetOr([]))
      ensures r.Ok? ==> data == if r.value.bingo != [] then old(data).(gameActive := Some(false)) else old(data)
    {
      if data.NotADict? || data.players.None? {
        return Raised;
      }
      if data.drawnNumbers.None? && HasCards(data.players.value) {
        return Raised;
      }
      var w := CollectWinners(data.players.value, data.drawnNumbers.GetOr([]));
      if w.bingo != [] {
        data := data.(gameActive := Some(false));
      }
      return Ok(w);
    }
  }
}
