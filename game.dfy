/**
 * The archived-game record of the legacy storage format: a timestamp, a game type and
 * a score board, each possibly null, with field-wise equality, a hash code built
 * from the same fields, and an ordering that puts the newest game first.
 */
module LegacyGames {
  import opened Wrappers
  import opened Java
  import opened Scores

  /** What `equals` may be handed: null, a `Game`, or an object of another class. */
  datatype Candidate = NullRef | GameRef(game: Game) | OtherClass {
    function Footprint(): set<object> {
      if GameRef? then {game} else {}
    }
  }

  /** Java's `a == null ? b == null : a.equals(b)` on one field. */
  function FieldEquals<T(==)>(a: Option<T>, b: Option<T>): (r: bool)
    ensures r <==> a == b
  {
    match a
    case None => b.None?
    case Some(x) => b.Some? && x == b.value
  }

  /** A field's contribution to the hash code: 0 for null. */
  function FieldHash<T>(a: Option<T>, hash: T -> int): (h: int)
    ensures a.None? ==> h == 0
  {
    match a
    case None => 0
    case Some(x) => hash(x)
  }

  /** `Date.compareTo`: the sign of `a - b`. */
  function CompareDates(a: int, b: int): (r: int)
    ensures r == -1 || r == 0 || r == 1
    ensures r < 0 <==> a < b
    ensures r == 0 <==> a == b
  {
    if a < b then -1 else if a == b then 0 else 1
  }

  class Game {
    var gameOverTimestamp: Option<int>
    var gameType: Option<string>
    var scoreBoard: Option<ScoreBoard>

    constructor ()
      ensures gameOverTimestamp.None? && gameType.None? && scoreBoard.None?
    {
      gameOverTimestamp := None;
      gameType := None;
      scoreBoard := None;
    }

    function GetGameOverTimestamp(): Option<int>
      reads this
    {
      gameOverTimestamp
    }

    function GetGameType(): Option<string>
      reads this
    {
      gameType
    }

    function GetScoreBoard(): Option<ScoreBoard>
      reads this
    {
      scoreBoard
    }

    method SetGameOverTimestamp(timestamp: Option<int>)
      modifies this`gameOverTimestamp
      ensures GetGameOverTimestamp() == timestamp
      ensures GetGameType() == old(GetGameType()) && GetScoreBoard() == old(GetScoreBoard())
    {
      gameOverTimestamp := timestamp;
    }

    method SetGameType(gameType: Option<string>)
      modifies this`gameType
      ensures GetGameType() == gameType
      ensures GetGameOverTimestamp() == old(GetGameOverTimestamp()) && GetScoreBoard() == old(GetScoreBoard())
    {
      this.gameType := gameType;
    }

    method SetScoreBoard(scoreBoard: Option<ScoreBoard>)
      modifies this`scoreBoard
      ensures GetScoreBoard() == scoreBoard
      ensures GetGameOverTimestamp() == old(GetGameOverTimestamp()) && GetGameType() == old(GetGameType())
    {
      this.scoreBoard := scoreBoard;
    }

    /**
     * Equality with `obj`: false for null and for other classes, otherwise all three
     * fields agree pairwise, null agreeing only with null.
     */
    function Equals(obj: Candidate): (r: bool)
      reads this, obj.Footprint()
      ensures r <==> obj.GameRef? && gameOverTimestamp == obj.game.gameOverTimestamp
                     && gameType == obj.game.gameType && scoreBoard == obj.game.scoreBoard
    {
      match obj
      case NullRef => false
      case OtherClass => false
      case GameRef(other) =>
        if this == other then true
        else
          && FieldEquals(gameOverTimestamp, other.gameOverTimestamp)
          && FieldEquals(gameType, other.gameType)
          && FieldEquals(scoreBoard, other.scoreBoard)
    }

    /**
     * The hash code, from the hash codes of the timestamp, the game type and the
     * board, combined with Java's wrapping `int` arithmetic.
     */
    function HashCode(dateHash: int -> int, stringHash: string -> int, boardHash: ScoreBoard -> int): (r: int)
      reads this
      ensures InInt32(r)
      ensures r == Wrap32(29791 + 961 * FieldHash(gameOverTimestamp, dateHash)
                          + 31 * FieldHash(gameType, stringHash) + FieldHash(scoreBoard, boardHash))
    {
      var prime := 31;
      var h1, h2, h3 := FieldHash(gameOverTimestamp, dateHash), FieldHash(gameType, stringHash), FieldHash(scoreBoard, boardHash);
      var r1 := Wrap32(prime * 1 + h1);
      var r2 := Wrap32(prime * r1 + h2);
      WrapMulAdd(31 + h1, h2);
      WrapMulAdd(31 * (31 + h1) + h2, h3);
      Wrap32(prime * r2 + h3)
    }

    /** Orders games newest first; both timestamps must be set. */
    function CompareTo(that: Game): (r: int)
      reads this, that
      requires gameOverTimestamp.Some? && that.gameOverTimestamp.Some?
      ensures r == -1 || r == 0 || r == 1
      ensures r < 0 <==> gameOverTimestamp.value > that.gameOverTimestamp.value
      ensures r == 0 <==> gameOverTimestamp.value == that.gameOverTimestamp.value
    {
      CompareDates(that.GetGameOverTimestamp().value, GetGameOverTimestamp().value)
    }
  }

  lemma EqualsIsReflexive(g: Game)
    ensures g.Equals(GameRef(g))
  {
  }

  lemma EqualsIsSymmetric(a: Game, b: Game)
    ensures a.Equals(GameRef(b)) == b.Equals(GameRef(a))
  {
  }

  lemma EqualsIsTransitive(a: Game, b: Game, c: Game)
    requires a.Equals(GameRef(b)) && b.Equals(GameRef(c))
    ensures a.Equals(GameRef(c))
  {
  }

  /** Equal games have equal hash codes, whatever the field hash functions are. */
  lemma HashCodeAgreesWithEquals(a: Game, b: Game, dateHash: int -> int, stringHash: string -> int, boardHash: ScoreBoard -> int)
    requires a.Equals(GameRef(b))
    ensures a.HashCode(dateHash, stringHash, boardHash) == b.HashCode(dateHash, stringHash, boardHash)
  {
  }

  /** A game with no fields set hashes to 31 * 31 * 31. */
  lemma EmptyGameHash(g: Game, dateHash: int -> int, stringHash: string -> int, boardHash: ScoreBoard -> int)
    requires g.gameOverTimestamp.None? && g.gameType.None? && g.scoreBoard.None?
    ensures g.HashCode(dateHash, stringHash, boardHash) == 29791
  {
  }

  lemma CompareToIsAntisymmetric(a: Game, b: Game)
    requires a.gameOverTimestamp.Some? && b.gameOverTimestamp.Some?
    ensures a.CompareTo(b) == -b.CompareTo(a)
  {
  }

  lemma CompareToSelfIsZero(g: Game)
    requires g.gameOverTimestamp.Some?
    ensures g.CompareTo(g) == 0
  {
  }

  lemma CompareToIsTransitive(a: Game, b: Game, c: Game)
    requires a.gameOverTimestamp.Some? && b.gameOverTimestamp.Some? && c.gameOverTimestamp.Some?
    requires a.CompareTo(b) < 0 && b.CompareTo(c) < 0
    ensures a.CompareTo(c) < 0
  {
  }
}
