/**
 * Players and the score board of one game session. The score board is held as an
 * ordered list of entries, one per participating player; a player's score is the
 * score of the first entry naming that player.
 */
module Scores {
  import opened Wrappers
  import opened Java

  datatype Player = Player(id: int, name: string)

  datatype ScoreBoardEntry = ScoreBoardEntry(player: Player, score: int)

  datatype ScoreBoard = ScoreBoard(entries: seq<ScoreBoardEntry>)

  /** The players of the board's entries, in entry order. */
  function PlayersOf(board: ScoreBoard): (players: seq<Player>)
    ensures |players| == |board.entries|
    ensures forall i :: 0 <= i < |players| ==> players[i] == board.entries[i].player
  {
    seq(|board.entries|, i requires 0 <= i < |board.entries| => board.entries[i].player)
  }

  /** The score recorded for `p`, or `None` when `p` has no entry. */
  function ScoreOf(board: ScoreBoard, p: Player): (s: Option<int>)
    ensures s.None? <==> p !in PlayersOf(board)
    ensures s.Some? ==> exists i :: 0 <= i < |board.entries| && board.entries[i] == ScoreBoardEntry(p, s.value)
  {
    var k := IndexOf(PlayersOf(board), p);
    if k < 0 then None else Some(board.entries[k].score)
  }

  /** The board with `p`'s score replaced by `s`: only `p`'s entry changes. */
  function WithScore(board: ScoreBoard, p: Player, s: int): (b: ScoreBoard)
    requires p in PlayersOf(board)
    ensures PlayersOf(b) == PlayersOf(board)
    ensures ScoreOf(b, p) == Some(s)
    ensures forall q :: q != p ==> ScoreOf(b, q) == ScoreOf(board, q)
    ensures forall i :: 0 <= i < |b.entries| && i != IndexOf(PlayersOf(board), p) ==> b.entries[i] == board.entries[i]
  {
    var k := IndexOf(PlayersOf(board), p);
    var b := ScoreBoard(board.entries[k := ScoreBoardEntry(p, s)]);
    assert PlayersOf(b) == PlayersOf(board);
    b
  }
}
