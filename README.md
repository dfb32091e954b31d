# ScoreKeeper core, modelled in Dafny

ScoreKeeper is an Android score-keeping app. Players are chosen and ordered for a
game. Turns cycle through them while each turn's score is added to a score board.
Finished games are archived to the device's private files. A one-off converter
migrates records stored in a legacy format to new classes.

This project models four pieces of that app and proves properties about them:

- **GameModel** (`game_model.dfy`, module `GameModels`). The running game is a class.
  It holds the selected players, the score board, an unbounded turn index that is
  reduced with Java's truncating `%`, and a log of
  the events it sends to listeners. `NextPlayer` and `PreviousPlayer` move the turn with
  wrap-around. `SetScoreForCurrentPlayer` adds to one player's score. `GameOver` appends
  one archived record to the game store. The turn functions `NextTurn` and `PreviousTurn`
  are proved inverse to each other. `n` calls of `NextPlayer` are proved to return to the
  starting turn.
- **Game** (`game.dfy`, module `LegacyGames`). The legacy archived-game record is a class
  with three nullable fields and their setters. It has field-wise `Equals`, a `HashCode`
  computed with Java's wrapping arithmetic, and a newest-first `CompareTo`. Lemmas state
  reflexivity, symmetry and transitivity of `Equals`, that `HashCode` agrees with
  `Equals`, and antisymmetry and transitivity of `CompareTo`.
- **Persistor** (`persistor.dfy`, module `Persistence`). The device's file store is a map
  from file names to what each file reads back as. A persistor for a class keeps its list
  in `<class>.data` and an id counter in `<class>.id`. `Load` returns the longest prefix
  that casts to the class. It returns nothing when the file is missing or does not hold a
  list. `NextId` does a read-modify-write of the counter and fails on a counter it cannot
  read.
- **DataConverter** (`data_converter.dfy`, module `Conversion`). Objects are abstract
  values (`objects.dfy`). Each object carries its class and its declared fields, and each
  field records whether its declared type is a collection. The mutually recursive spec
  functions `Translate`, `CopyFields`, `TranslateField` and `TranslateElements` give the
  converter's meaning. The class's methods `TranslateObject`, `TranslateFieldValue` and
  `FindTranslatedClass` are loops proved equal to them. `ConvertData` moves one class's
  stored records to another class's store.

Support modules: `wrappers.dfy` holds `Option`, `Result` and `Outcome` in place of null
and exceptions. `java.dfy` holds Java `int` wrap-around, Java's truncating `%`, and
`List.indexOf`. `scores.dfy` holds players and the score board.

One behaviour of the code is kept as written. When the saved current player is not among
the selected players, `indexOf` yields -1 and the constructor stores that turn. The
model keeps it (`GameModel.constructor` states it). `Valid()` then fails until
`NextPlayer` brings the turn back to 0.

## Model

| member | source | states |
|---|---|---|
| `Java.Wrap32` | ScoreKeeper/src/net/todd/scorekeeper/GameModel.java:63-65 | a Java `int` result lies in the 32-bit range, is congruent to the exact result modulo 2^32, and equals it when no overflow occurs |
| `Java.WrapMulAdd` | ScoreKeeper/src/net/todd/scorekeeper/Game.java:40-45 | wrapping after each `31 * h + c` step gives the same value as wrapping once at the end |
| `Java.JavaRem` | ScoreKeeper/src/net/todd/scorekeeper/GameModel.java:50 | Java's `%` agrees with the mathematical remainder on non-negative dividends, lies strictly between -n and n, and is negative only for negative dividends |
| `Java.IndexOf` | ScoreKeeper/src/net/todd/scorekeeper/GameModel.java:39 | `indexOf` gives -1 exactly when the element is absent, and otherwise the first position holding it |
| `Scores.PlayersOf` | ScoreKeeper/src/net/todd/scorekeeper/GameModel.java:34-36 | the players of the board, one per entry, in entry order |
| `Scores.ScoreOf` | ScoreKeeper/src/net/todd/scorekeeper/GameModel.java:74 | a player has a score exactly when the player has an entry, and the score is one recorded for that player |
| `Scores.WithScore` | ScoreKeeper/src/net/todd/scorekeeper/GameModel.java:65 | setting a score changes that player's score to the new value, leaves the players and every other player's score alone, and alters only that player's entry |
| `GameModels.NextTurn` | ScoreKeeper/src/net/todd/scorekeeper/GameModel.java:48-52 | the next turn stays in [0, n) from any turn >= -1, and from a valid turn is the following player or 0 after the last |
| `GameModels.PreviousTurn` | ScoreKeeper/src/net/todd/scorekeeper/GameModel.java:54-60 | from a valid turn, the previous turn stays in [0, n) and equals (turn - 1) mod n, so it wraps from 0 to n - 1 |
| `GameModels.PreviousUndoesNext` | ScoreKeeper/src/net/todd/scorekeeper/GameModel.java:48-60 | going back after going forward restores the turn |
| `GameModels.NextUndoesPrevious` | ScoreKeeper/src/net/todd/scorekeeper/GameModel.java:48-60 | going forward after going back restores the turn |
| `GameModels.StepIsModular` | ScoreKeeper/src/net/todd/scorekeeper/GameModel.java:49-50 | one more turn after turn a mod n is turn (a + 1) mod n |
| `GameModels.AdvanceIsModular` | ScoreKeeper/src/net/todd/scorekeeper/GameModel.java:48-52 | k calls of `nextPlayer` from a valid turn t land on turn (t + k) mod n |
| `GameModels.Advance` | ScoreKeeper/src/net/todd/scorekeeper/GameModel.java:48-52 | the turn after k `nextPlayer` calls; from a valid turn, or after at least one call from any turn >= -1, it is a valid turn |
| `GameModels.FullRoundReturns` | ScoreKeeper/src/net/todd/scorekeeper/GameModel.java:48-52 | n consecutive `nextPlayer` calls return to the starting turn |
| `GameModels.GameStore.AddGame` | ScoreKeeper/src/net/todd/scorekeeper/GameModel.java:104 | the store gains exactly the added game at its end |
| `GameModels.GameModel.constructor` | ScoreKeeper/src/net/todd/scorekeeper/GameModel.java:28-41 | the players are exactly the board's entries' players in entry order; the turn is the saved player's index (-1 when absent) or 0 without one; the model is valid when there are players and the saved player, if any, is among them |
| `GameModels.GameModel.CurrentPlayer` | ScoreKeeper/src/net/todd/scorekeeper/GameModel.java:69-71 | the current player is one of the selected players and has a score on the board |
| `GameModels.GameModel.CurrentPlayersScore` | ScoreKeeper/src/net/todd/scorekeeper/GameModel.java:73-75 | the board's score for the player at the turn index, which is the score on that row when the player's first row is the turn's |
| `GameModels.GameModel.NextPlayer` | ScoreKeeper/src/net/todd/scorekeeper/GameModel.java:43-52 | the turn becomes (turn + 1) mod n and stays valid; players and board unchanged; one player-changed event |
| `GameModels.GameModel.PreviousPlayer` | ScoreKeeper/src/net/todd/scorekeeper/GameModel.java:77-80 | the turn moves back with wrap-around and stays valid; players and board unchanged; one player-changed event |
| `GameModels.GameModel.SetScoreForCurrentPlayer` | ScoreKeeper/src/net/todd/scorekeeper/GameModel.java:62-67 | the current player's score rises by exactly the delta (as Java `int` arithmetic); every other player's score, every other entry, the turn and the players are unchanged; one score-changed event |
| `GameModels.GameModel.GameOver` | ScoreKeeper/src/net/todd/scorekeeper/GameModel.java:99-108 | exactly one game, carrying the given time, this game's name and board, is appended to the store; one game-over event |
| `GameModels.GameModel.CancelGame` | ScoreKeeper/src/net/todd/scorekeeper/GameModel.java:86-89 | only a cancellation event is sent |
| `LegacyGames.FieldEquals` | ScoreKeeper/src/net/todd/scorekeeper/Game.java:57-71 | the null-safe field comparison holds exactly when both fields are null or both hold equal values |
| `LegacyGames.FieldHash` | ScoreKeeper/src/net/todd/scorekeeper/Game.java:42-44 | a null field contributes 0 to the hash |
| `LegacyGames.CompareDates` | ScoreKeeper/src/net/todd/scorekeeper/Game.java:77 | date comparison gives -1, 0 or 1 with the sign of the difference |
| `LegacyGames.Game.constructor` | ScoreKeeper/src/net/todd/scorekeeper/Game.java:10-12 | a new game has all three fields null |
| `LegacyGames.Game.SetGameOverTimestamp` | ScoreKeeper/src/net/todd/scorekeeper/Game.java:18-20 | the getter returns the value set; the other two fields are unchanged |
| `LegacyGames.Game.SetGameType` | ScoreKeeper/src/net/todd/scorekeeper/Game.java:26-28 | the getter returns the value set; the other two fields are unchanged |
| `LegacyGames.Game.SetScoreBoard` | ScoreKeeper/src/net/todd/scorekeeper/Game.java:34-36 | the getter returns the value set; the other two fields are unchanged |
| `LegacyGames.Game.Equals` | ScoreKeeper/src/net/todd/scorekeeper/Game.java:49-73 | false for null and for other classes; otherwise true exactly when all three fields agree pairwise, null agreeing only with null |
| `LegacyGames.Game.HashCode` | ScoreKeeper/src/net/todd/scorekeeper/Game.java:39-46 | the hash is a Java `int`: 31^3 + 31^2 h(timestamp) + 31 h(type) + h(board), wrapped to 32 bits, with 0 for null fields |
| `LegacyGames.Game.CompareTo` | ScoreKeeper/src/net/todd/scorekeeper/Game.java:76-78 | with both timestamps set, a game sorts before another exactly when its timestamp is later; 0 exactly for equal timestamps |
| `LegacyGames.EqualsIsReflexive` | ScoreKeeper/src/net/todd/scorekeeper/Game.java:50-51 | every game equals itself |
| `LegacyGames.EqualsIsSymmetric` | ScoreKeeper/src/net/todd/scorekeeper/Game.java:56-72 | a equals b exactly when b equals a |
| `LegacyGames.EqualsIsTransitive` | ScoreKeeper/src/net/todd/scorekeeper/Game.java:56-72 | equality of games is transitive |
| `LegacyGames.HashCodeAgreesWithEquals` | ScoreKeeper/src/net/todd/scorekeeper/Game.java:38-73 | equal games have equal hash codes, for any field hash functions |
| `LegacyGames.EmptyGameHash` | ScoreKeeper/src/net/todd/scorekeeper/Game.java:40-45 | a game with all fields null hashes to 29791 |
| `LegacyGames.CompareToIsAntisymmetric` | ScoreKeeper/src/net/todd/scorekeeper/Game.java:76-78 | comparing b with a gives the negation of comparing a with b |
| `LegacyGames.CompareToSelfIsZero` | ScoreKeeper/src/net/todd/scorekeeper/Game.java:76-78 | a game compares equal to itself |
| `LegacyGames.CompareToIsTransitive` | ScoreKeeper/src/net/todd/scorekeeper/Game.java:76-78 | the newest-first order is transitive |
| `Objects.FieldIndex` | ScoreKeeper/src/net/todd/scorekeeper/data/DataConverter.java:76-77 | a field lookup by name gives -1 exactly when no field has that name, and otherwise the first field with it |
| `Persistence.IdFilename` | ScoreKeeper/src/net/todd/scorekeeper/Persistor.java:95-97 | a class's counter file is named by the class name followed by `.id` |
| `Persistence.DataFilename` | ScoreKeeper/src/net/todd/scorekeeper/Persistor.java:99-101 | a class's list file is named by the class name followed by `.data` |
| `Persistence.DataAndIdFilesDiffer` | ScoreKeeper/src/net/todd/scorekeeper/Persistor.java:95-101 | no class's list file is any class's counter file |
| `Persistence.DataFilesDiffer` | ScoreKeeper/src/net/todd/scorekeeper/Persistor.java:99-101 | distinct classes keep their lists in distinct files |
| `Persistence.CastPrefix` | ScoreKeeper/src/net/todd/scorekeeper/Persistor.java:84-86 | the items collected are a prefix of the stored list, all of which cast to the class, ending at the end or at the first item that does not cast |
| `Persistence.CastPrefixIsUnique` | ScoreKeeper/src/net/todd/scorekeeper/Persistor.java:83-91 | any all-castable prefix that stops at the end or at a failing cast is that castable prefix |
| `Persistence.StoredItems` | ScoreKeeper/src/net/todd/scorekeeper/Persistor.java:77-79 | a missing list file loads as the empty list |
| `Persistence.StoredId` | ScoreKeeper/src/net/todd/scorekeeper/Persistor.java:51-65 | the counter reads as 0 without a file; reading it fails exactly when the file does not hold an `Integer` |
| `Persistence.NextIdOf` | ScoreKeeper/src/net/todd/scorekeeper/Persistor.java:34-38 | the next id fails exactly when the counter cannot be read, and is one more than the counter below the `int` maximum |
| `Persistence.IdsIssued` | ScoreKeeper/src/net/todd/scorekeeper/Persistor.java:34-39 | k successive `nextId` calls issue exactly k ids, and fail at once when the counter cannot be read |
| `Persistence.Persistor.constructor` | ScoreKeeper/src/net/todd/scorekeeper/Persistor.java:19-22 | a persistor remembers the class it stores and the context it writes to |
| `Persistence.Persistor.Persist` | ScoreKeeper/src/net/todd/scorekeeper/Persistor.java:24-32 | the list file is overwritten with the items; no other file changes |
| `Persistence.Persistor.NextId` | ScoreKeeper/src/net/todd/scorekeeper/Persistor.java:34-39 | returns the next id and stores it as the counter, changing no other file; on an unreadable counter, returns an error and changes nothing |
| `Persistence.Persistor.SaveCurrentId` | ScoreKeeper/src/net/todd/scorekeeper/Persistor.java:41-49 | the counter file is overwritten with the id; no other file changes |
| `Persistence.Persistor.LoadCurrentId` | ScoreKeeper/src/net/todd/scorekeeper/Persistor.java:51-65 | returns the stored counter, 0 without a file, or an error for a file that does not hold an `Integer` |
| `Persistence.Persistor.Load` | ScoreKeeper/src/net/todd/scorekeeper/Persistor.java:77-93 | returns what is stored for the class: a prefix of the stored list, up to the first item that fails to cast; no error escapes |
| `Persistence.PersistThenLoad` | ScoreKeeper/src/net/todd/scorekeeper/Persistor.java:24-92 | persisting items of the class and then loading gives back the same items in the same order |
| `Persistence.LoadStopsAtFailedCast` | ScoreKeeper/src/net/todd/scorekeeper/Persistor.java:83-91 | a load returns none of the items from the first failing cast on |
| `Persistence.FirstIdIsOne` | ScoreKeeper/src/net/todd/scorekeeper/Persistor.java:34-63 | the first id without a counter file is 1 |
| `Persistence.SuccessiveIdsAreConsecutive` | ScoreKeeper/src/net/todd/scorekeeper/Persistor.java:34-46 | from a readable counter s, k calls return s + 1, ..., s + k, leave the counter at s + k, and leave every class's list as it was |
| `Persistence.PersistLeavesCounters` | ScoreKeeper/src/net/todd/scorekeeper/Persistor.java:95-101 | persisting a list never changes any class's counter |
| `Persistence.NextIdLeavesLists` | ScoreKeeper/src/net/todd/scorekeeper/Persistor.java:95-101 | storing a counter never changes what any class's load returns |
| `Conversion.FirstConversion` | ScoreKeeper/src/net/todd/scorekeeper/data/DataConverter.java:92-102 | the position of the first conversion whose source class matches, or -1 exactly when none matches |
| `Conversion.TranslatedClass` | ScoreKeeper/src/net/todd/scorekeeper/data/DataConverter.java:92-102 | no target class exactly when no conversion matches; only objects are ever matched |
| `Conversion.Translate` | ScoreKeeper/src/net/todd/scorekeeper/data/DataConverter.java:64-90 | a value no conversion matches translates to itself; a match whose target cannot be instantiated fails; a successful match gives an instance of the target class whose fields are exactly the target's fields, in order |
| `Conversion.CopyFields` | ScoreKeeper/src/net/todd/scorekeeper/data/DataConverter.java:72-86 | copying source fields into the new instance never adds, drops, renames or reorders the target's fields |
| `Conversion.TranslateField` | ScoreKeeper/src/net/todd/scorekeeper/data/DataConverter.java:104-118 | a collection-typed field that does not hold a collection fails; a translated collection field is a list of the same length |
| `Conversion.TranslateElements` | ScoreKeeper/src/net/todd/scorekeeper/data/DataConverter.java:108-113 | translating the remaining elements appends exactly one translation per element after what was already collected |
| `Conversion.Converted` | ScoreKeeper/src/net/todd/scorekeeper/data/DataConverter.java:51-58 | the translated records have the originals' length and order, and each casts to the target class |
| `Conversion.DataConverter.constructor` | ScoreKeeper/src/net/todd/scorekeeper/data/DataConverter.java:39-42 | the converter keeps the file store it writes to and the known conversions in their order, plus the table of instantiable classes that stands in for `newInstance` |
| `Conversion.DataConverter.ConvertData` | ScoreKeeper/src/net/todd/scorekeeper/data/DataConverter.java:45-62 | an empty source writes nothing; a record that fails to translate or cast yields "Data conversion failed" with both stores untouched; otherwise the target receives the translations in order, then the source is emptied |
| `Conversion.DataConverter.TranslateObject` | ScoreKeeper/src/net/todd/scorekeeper/data/DataConverter.java:64-90 | the field-by-field loop computes the translation the spec functions define |
| `Conversion.DataConverter.FindTranslatedClass` | ScoreKeeper/src/net/todd/scorekeeper/data/DataConverter.java:92-102 | the scan with `break` returns the first matching conversion's target class, or none |
| `Conversion.DataConverter.TranslateFieldValue` | ScoreKeeper/src/net/todd/scorekeeper/data/DataConverter.java:104-118 | the element loop computes the field translation the spec functions define |
| `Conversion.UnmatchedValuePassesThrough` | ScoreKeeper/src/net/todd/scorekeeper/data/DataConverter.java:65-69 | a value no conversion matches is returned unchanged |
| `Conversion.UninstantiableTargetFails` | ScoreKeeper/src/net/todd/scorekeeper/data/DataConverter.java:71 | a match whose target class cannot be instantiated is an error |
| `Conversion.CopyFieldsEffect` | ScoreKeeper/src/net/todd/scorekeeper/data/DataConverter.java:72-87 | copying keeps the target's field names and types; `serialVersionUID` and fields the source lacks keep their values; every other field receives the translated same-named source field |
| `Conversion.MatchedObjectTranslation` | ScoreKeeper/src/net/todd/scorekeeper/data/DataConverter.java:64-90 | a matched object becomes a target-class instance with exactly the target's fields: `serialVersionUID` never copied, missing fields at their initial values, shared fields translated, extra source fields dropped |
| `Conversion.TranslateElementsEffect` | ScoreKeeper/src/net/todd/scorekeeper/data/DataConverter.java:108-115 | the element loop succeeds exactly when every remaining element translates, and appends their translations in order |
| `Conversion.CollectionFieldTranslation` | ScoreKeeper/src/net/todd/scorekeeper/data/DataConverter.java:104-118 | a collection-typed field translates exactly when it holds a collection whose elements all translate, giving a list of the same length with each element translated in order |
| `Conversion.ConversionRoundTrip` | ScoreKeeper/src/net/todd/scorekeeper/data/DataConverter.java:59-60 | after a successful conversion between distinct classes, loading the target gives the translations in order and loading the source gives nothing |

## Left out

- GameModels.GameModel.NextPlayer: requires at least one selected player. With none, the source's `%=` throws `ArithmeticException` after the `++` has already changed the turn; the model excludes that call.
- GameModels.GameModel.CurrentPlayer: requires `Valid()`, a turn in range. With a negative turn the source's `get` throws `IndexOutOfBoundsException`; the model excludes that call. The turn is -1 when the saved player is absent, and -2 after `previousPlayer` from -1.
- GameModels.GameModel.CurrentPlayersScore: requires `Valid()`. With a negative turn the source throws `IndexOutOfBoundsException` through `getCurrentPlayer`; the model excludes that call.
- GameModels.GameModel.SetScoreForCurrentPlayer: requires `Valid()`. With a negative turn the source throws `IndexOutOfBoundsException` through `getCurrentPlayer` before any score changes; the model excludes that call.
- GameModels.GameModel.PreviousPlayer: the turn index is an unbounded integer. The source's `--` wraps from the `int` minimum to the maximum, and that wrap is not modelled. It could be reached only by about 2^31 `previousPlayer` calls from a negative turn.
- LegacyGames.Game.CompareTo: requires both timestamps to be set. With either one null the source throws `NullPointerException`; the model excludes that call.
- Listener registration and `ListenerManager` are not part of this model. Notifications are recorded as an event log in `GameModel.events`.
- Page navigation in `cancelGame` and `gameOver` is a platform effect and is left out. The wall-clock `new Date()` in `gameOver` becomes the parameter `now`.
- `CurrentGame`, `ScoreBoard`, `Player`, `GameStore` and the new-format `data.Game` are not part of this model. A score is read from and written to the first entry naming the player. Players compare by value. The store appends. `data.Game` is the datatype `ArchivedGame`.
- GameModels.GameModel.GameOver: the archived record holds a copy of the board, while the source shares the live board object; later changes to the board are therefore not seen by the record.
- The trivial getters `getScoreBoard` and `getGameName` of the game model are left out, since the model's fields are readable directly. The legacy `Game` getters are field reads.
- The presenter's ordering of `setScoreForCurrentPlayer` before `nextPlayer` belongs to the presenter and is not modelled.
- LegacyGames.Game.HashCode: the hash codes of `Date`, `String` and `ScoreBoard` are parameters, because those classes are not part of this model. `Date` is modelled as its millisecond value.
- LegacyGames.Game.Equals: the field comparisons use value equality, since `ScoreBoard.equals` is not part of this model. A subclass of `Game` counts as another class.
- Persistence.Persistor.Persist: write failures are not modelled; writes always succeed. The source rethrows I/O errors and serialization failures of unserializable items (Persistor.java:29-31). The stream it leaves unclosed (Persistor.java:26-28) raises nothing and is not modelled either. The same holds for `Persistence.Persistor.SaveCurrentId`.
- Java object serialization, file modes and `Context` are replaced by the file map. `doesFileExist` is key membership. The error log written by `load` is left out. The static factory `create` is the constructor.
- `ObjectSerializerPersistor` and `XmlPersistor` are not part of this model. Both stores are modelled by `Persistor`, so their file naming is that of `Persistor`.
- Conversion.DataConverter.ConvertData: the stated file update uses `Persistor`'s `<class>.data` naming for both stores. In the program the target store is `XmlPersistor`, which writes `<class>.xml` (its test, ScoreKeeperTest/src/net/todd/scorekeeper/data/XmlPersistorTest.java:133 and 147). Two things therefore come from the model, not the program. When the source and target class coincide, the emptied source overwrites the target in the model, while the program keeps both files. `Conversion.ConversionRoundTrip` requires distinct classes for the same reason.
- Reflection is abstracted away: `setAccessible`, `newInstance`, `getDeclaredField` and `Class.cast`. `isInstance` is an exact class match, with no subclasses. Primitives and collections never match a conversion. The type checks of `Field.set` are not modelled. "The same object" is value equality.
- Cyclic object graphs are out of scope; values are finite datatypes.
- Conversion.CopyFieldsEffect and Conversion.MatchedObjectTranslation: these assume that no class declares two fields with the same name, which Java guarantees.
- `ClassConversionBean.toString` is diagnostic text and is left out.
