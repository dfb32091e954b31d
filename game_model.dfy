/**
 * The running game: whose turn it is, and the score board it updates. Turns cycle
 * through the players in score-board order; a finished game is archived into the
 * game store.
 */
module GameModels {
  import opened Wrappers
  import opened Java
  import opened Scores

  /** The notifications the model sends to its listeners. */
  datatype Event = ScoreChanged | PlayerChanged | GameEnded | GameCancelled

  /** What the set-up page hands over when a game starts or resumes. */
  datatype CurrentGame = CurrentGame(scoreBoard: ScoreBoard, gameName: Option<string>, currentPlayer: Option<Player>)

  /** The record `gameOver` archives. */
  datatype ArchivedGame = ArchivedGame(gameOverTimestamp: int, gameName: Option<string>, scoreBoard: ScoreBoard)

  /** The turn after `turn` among `n` players: Java's `(turn + 1) % n`. */
  function NextTurn(turn: int, n: int): (t: int)
    requires n > 0
    ensures -1 <= turn ==> 0 <= t < n
    ensures 0 <= turn < n ==> t == if turn == n - 1 then 0 else turn + 1
  {
    JavaRem(turn + 1, n)
  }

  /** The turn before `turn` among `n` players, wrapping from the first player to the last. */
  function PreviousTurn(turn: int, n: int): (t: int)
    ensures 0 <= turn < n ==> 0 <= t < n && t == (turn - 1) % n
  {
    if turn - 1 == -1 then n - 1 else turn - 1
  }

  lemma PreviousUndoesNext(turn: int, n: int)
    requires 0 <= turn < n
    ensures PreviousTurn(NextTurn(turn, n), n) == turn
  {
  }

  lemma NextUndoesPrevious(turn: int, n: int)
    requires 0 <= turn < n
    ensures NextTurn(PreviousTurn(turn, n), n) == turn
  {
  }

  /** The turn after `k` calls of `nextPlayer`. */
  function Advance(turn: int, n: int, k: nat): (t: int)
    requires n > 0
    ensures 0 <= turn < n ==> 0 <= t < n
    ensures -1 <= turn && k > 0 ==> 0 <= t < n
  {
    if k == 0 then turn else NextTurn(Advance(turn, n, k - 1), n)
  }

  lemma {:induction false} AdvanceIsModular(turn: int, n: int, k: nat)
    requires 0 <= turn < n
    ensures Advance(turn, n, k) == (turn + k) % n
  {
    if k > 0 {
      AdvanceIsModular(turn, n, k - 1);
      StepIsModular(turn + k - 1, n);
    }
  }

  /** One more turn after the turn `a % n` is the turn `(a + 1) % n`. */
  lemma StepIsModular(a: nat, n: int)
    requires n > 0
    ensures NextTurn(a % n, n) == (a + 1) % n
  {
    var q, r := a / n, a % n;
    assert a == q * n + r && 0 <= r < n;
    if r == n - 1 {
      ModOfMultipleAndRest(a + 1, q + 1, 0, n);
    } else {
      ModOfMultipleAndRest(a + 1, q, r + 1, n);
    }
  }

  /** A remainder is determined by any quotient-and-rest decomposition. */
  lemma ModOfMultipleAndRest(a: int, q: int, r: int, n: int)
    requires n > 0 && 0 <= r < n && a == q * n + r
    ensures a % n == r
  {
    var q', r' := a / n, a % n;
    assert a == q' * n + r';
    var d := q - q';
    assert d * n == r' - r by {
      assert q * n - q' * n == d * n;
    }
    if d >= 1 {
      MulAtLeast(d, n);
    } else if d <= -1 {
      MulAtLeast(-d, n);
    }
  }

  lemma MulAtLeast(d: int, n: int)
    requires d >= 1 && n > 0
    ensures d * n >= n
  {
  }

  /** `n` consecutive `nextPlayer` calls bring the turn back to where it started. */
  lemma FullRoundReturns(turn: int, n: int)
    requires 0 <= turn < n
    ensures Advance(turn, n, n) == turn
  {
    AdvanceIsModular(turn, n, n);
    ModOfMultipleAndRest(turn + n, 1, turn, n);
  }

  /** The store of finished games. */
  class GameStore {
    var games: seq<ArchivedGame>

    constructor (games: seq<ArchivedGame>)
      ensures this.games == games
    {
      this.games := games;
    }

    method AddGame(game: ArchivedGame)
      modifies this
      ensures games == old(games) + [game]
    {
      games := games + [game];
    }
  }

  class GameModel {
    const gameStore: GameStore
    const gameName: Option<string>
    var selectedPlayers: seq<Player>
    var scoreBoard: ScoreBoard
    var currentPlayersTurn: int
    var events: seq<Event>

    /** The players are those of the board in entry order, and the turn names one of them. */
    ghost predicate Valid()
      reads this
    {
      && selectedPlayers == PlayersOf(scoreBoard)
      && 0 <= currentPlayersTurn < |selectedPlayers|
    }

    constructor (gameStore: GameStore, currentGame: CurrentGame)
      ensures this.gameStore == gameStore && gameName == currentGame.gameName
      ensures scoreBoard == currentGame.scoreBoard && events == []
      ensures |selectedPlayers| == |scoreBoard.entries|
      ensures forall i :: 0 <= i < |selectedPlayers| ==> selectedPlayers[i] == scoreBoard.entries[i].player
      ensures currentPlayersTurn == match currentGame.currentPlayer
                                    case None => 0
                                    case Some(p) => IndexOf(selectedPlayers, p)
      ensures currentGame.currentPlayer.Some? && currentGame.currentPlayer.value !in selectedPlayers ==> currentPlayersTurn == -1
      ensures |selectedPlayers| > 0 && (currentGame.currentPlayer.None? || currentGame.currentPlayer.value in selectedPlayers) ==> Valid()
    {
      var entries := currentGame.scoreBoard.entries;
      var players: seq<Player> := [];
      for i := 0 to |entries|
        invariant |players| == i
        invariant forall j :: 0 <= j < i ==> players[j] == entries[j].player
      {
        players := players + [entries[i].player];
      }
      var turn := 0;
      if currentGame.currentPlayer.Some? {
        turn := IndexOf(players, currentGame.currentPlayer.value);
      }
      this.gameStore := gameStore;
      scoreBoard := currentGame.scoreBoard;
      selectedPlayers := players;
      gameName := currentGame.gameName;
      currentPlayersTurn := turn;
      events := [];
    }

    /** The player whose turn it is; that player always has a score on the board. */
    function CurrentPlayer(): (p: Player)
      reads this
      requires Valid()
      ensures p in selectedPlayers && ScoreOf(scoreBoard, p).Some?
    {
      selectedPlayers[currentPlayersTurn]
    }

    /** The current player's score: the score on the current player's row of the board. */
    function CurrentPlayersScore(): (s: int)
      reads this
      requires Valid()
      ensures ScoreOf(scoreBoard, selectedPlayers[currentPlayersTurn]) == Some(s)
      ensures IndexOf(selectedPlayers, selectedPlayers[currentPlayersTurn]) == currentPlayersTurn ==>
                s == scoreBoard.entries[currentPlayersTurn].score
    {
      ScoreOf(scoreBoard, CurrentPlayer()).value
    }

    method NextPlayer()
      requires |selectedPlayers| > 0
      modifies this
      ensures selectedPlayers == old(selectedPlayers) && scoreBoard == old(scoreBoard)
      ensures currentPlayersTurn == NextTurn(old(currentPlayersTurn), |selectedPlayers|)
      ensures old(Valid()) ==> Valid() && currentPlayersTurn == (old(currentPlayersTurn) + 1) % |selectedPlayers|
      ensures events == old(events) + [PlayerChanged]
    {
      currentPlayersTurn := currentPlayersTurn + 1;
      currentPlayersTurn := JavaRem(currentPlayersTurn, |selectedPlayers|);
      events := events + [PlayerChanged];
    }

    method PreviousPlayer()
      modifies this
      ensures currentPlayersTurn == PreviousTurn(old(currentPlayersTurn), |selectedPlayers|)
      ensures old(Valid()) ==> Valid()
      ensures selectedPlayers == old(selectedPlayers) && scoreBoard == old(scoreBoard)
      ensures events == old(events) + [PlayerChanged]
    {
      currentPlayersTurn := currentPlayersTurn - 1;
      if currentPlayersTurn == -1 {
        currentPlayersTurn := |selectedPlayers| - 1;
      }
      events := events + [PlayerChanged];
    }

    /** Adds `score` to the current player's score (as Java `int` arithmetic) and to no one else's. */
    method SetScoreForCurrentPlayer(score: int)
      requires Valid()
      modifies this
      ensures Valid()
      ensures selectedPlayers == old(selectedPlayers) && currentPlayersTurn == old(currentPlayersTurn)
      ensures ScoreOf(scoreBoard, CurrentPlayer()) == Some(Wrap32(old(CurrentPlayersScore()) + score))
      ensures InInt32(old(CurrentPlayersScore()) + score) ==>
                ScoreOf(scoreBoard, CurrentPlayer()) == Some(old(CurrentPlayersScore()) + score)
      ensures forall q :: q != CurrentPlayer() ==> ScoreOf(scoreBoard, q) == ScoreOf(old(scoreBoard), q)
      ensures |scoreBoard.entries| == |old(scoreBoard).entries|
      ensures forall i :: 0 <= i < |scoreBoard.entries| && i != IndexOf(selectedPlayers, CurrentPlayer()) ==>
                scoreBoard.entries[i] == old(scoreBoard).entries[i]
      ensures events == old(events) + [ScoreChanged]
    {
      var currentScore := ScoreOf(scoreBoard, CurrentPlayer()).value;
      currentScore := Wrap32(currentScore + score);
      scoreBoard := WithScore(scoreBoard, CurrentPlayer(), currentScore);
      events := events + [ScoreChanged];
    }

    /** Archives this game, stamped with the moment `now`, into the game store. */
    method GameOver(now: int)
      modifies this, gameStore
      ensures gameStore.games == old(gameStore.games) + [ArchivedGame(now, gameName, scoreBoard)]
      ensures selectedPlayers == old(selectedPlayers) && scoreBoard == old(scoreBoard)
      ensures currentPlayersTurn == old(currentPlayersTurn)
      ensures events == old(events) + [GameEnded]
    {
      var game := ArchivedGame(now, gameName, scoreBoard);
      gameStore.AddGame(game);
      events := events + [GameEnded];
    }

    method CancelGame()
      modifies this
      ensures selectedPlayers == old(selectedPlayers) && scoreBoard == old(scoreBoard)
      ensures currentPlayersTurn == old(currentPlayersTurn)
      ensures events == old(events) + [GameCancelled]
    {
      events := events + [GameCancelled];
    }
  }
}
