# puzzle-bot core, modelled in Dafny

puzzle-bot is a Discord bot that runs small puzzle games (maze, hangman,
sudoku) inside message embeds. Players use emoji reactions and never type
commands. This project models the bot's core:

- the game engines;
- the randomised Kruskal maze generator, together with the disjoint-set
  forest it uses;
- the two embed-title codecs (`PuzzleLabel` and `GameTitle`);
- the in-process registry of running games, in its current and its legacy
  version;
- the reaction handler that routes a reaction to its game and ends a
  lost game (with the engines as written, no reaction ever does);
- the leaderboard rule of `Database.addCompletionTime`, which keeps the
  three best completion times per game and difficulty; nothing in the
  source calls it.

Every `.dfy` file is one module. All files are verified together.

| module | file | models |
|---|---|---|
| `Wrappers` | wrappers.dfy | `Option`, `Result`, the error kinds (`Thrown`, `TypeError`), an `Outcome` of a step that may throw |
| `Game` | game.dfy | the status a game reports (`Pending`, `Win`, `Loss`) |
| `Text` | text.dfy | string helpers: `includes`, ASCII case folding, decimal strings, `padStart` |
| `UnionTree` | union_tree.dfy | `src/utils/union-tree.ts`, as a class over a parent array |
| `MazeGenerator` | maze_generator.dfy | `src/utils/generateMaze.ts` |
| `Maze` | maze_game.dfy | `src/games/maze-game.ts` |
| `Hangman` | hangman.dfy | `src/games/hangman-game.ts` |
| `Sudoku` | sudoku.dfy | `src/games/sudoku-game.ts` |
| `Pattern` | pattern.dfy | the JavaScript regular-expression matching the title parsers rely on |
| `PuzzleLabel` | puzzle_label.dfy | `src/core/puzzle-label.ts` |
| `GameTitle` | game_title.dfy | `src/core/game-title.ts` |
| `Registry` | registry.dfy | `src/core/state-manager.ts` and `src/core/game-map.ts` |
| `LegacyRegistry` | legacy_registry.dfy | `src/state-manager.ts` |
| `GameHandler` | game_handler.dfy | `handleGameUpdate` and `parseGameNameAndID` in `src/core/game-handler.ts` |
| `Leaderboard` | leaderboard.dfy | the list update of `addCompletionTime` in `src/core/database.ts` |

Design:

- **Mutable objects become classes.** Union forest, engines, registries and
  a game's completion-time record are classes whose methods modify their
  fields. Pure codecs and rules are functions, with lemmas about them.
- **The maze grid is a value.** The grid's tiles are fresh objects that are
  never shared, so the grid is a `seq<seq<Tile>>`. The union forest is an
  `array` of parent indices. A ghost `Classes()` gives the root of every
  node.
- **Regular expressions are written out as searches.** Each title regular
  expression becomes an explicit search that follows JavaScript's semantics:
  - the leftmost start wins;
  - a greedy `(.*)` tries the longest text first and stops at the first
    line terminator;
  - `/i` folds ASCII case only.

  Against these definitions the model proves which groups a title made by
  the codecs yields, including the cases where the split is not the
  intended one.
- **Randomness and the outside world become parameters.**
  - the shuffled edge order of `_.shuffle(edges)`;
  - the word `randomWords()` draws;
  - whether the database already knows a guild;
  - the status an engine reports after the reaction.

  The handler's database call is never reached (see below), so it is not
  modelled.

Where the code and the design description of the system disagree, the model
follows the code:

- **A loading title throws.** The design says an input on a loading title is
  ignored. In `src/core/game-handler.ts:42` the `null` returned for it is
  destructured, which throws a `TypeError` (`GameHandler.LoadingTitleThrows`).
- **Only a maze loss ends a game.** The design says hangman ends on win or
  loss and sudoku on a solved board. In the code, hangman's `getStatus`
  returns a bare string, so `{ status }` is undefined and a hangman game is
  never removed. Sudoku has no `getStatus`, so every reaction to a sudoku
  game throws once the board has been updated
  (`GameHandler.OnlyMazeFinishes`). A maze win throws too: the engines
  extend the `Game` of `src/game.ts:8-17`, which has `startTime` but no
  `getElapsedTimeInMilliseconds`, so `src/core/game-handler.ts:53` throws a
  `TypeError` before the time is recorded or the game removed
  (`GameHandler.MazeStatusDecides`). `src/core/game.ts:17-19` defines that
  method, but no engine extends that class. The maze never reports a loss
  either (`src/games/maze-game.ts:74-82`, `Maze.MazeGame.GetStatus`), so
  with the engines as written no reaction ever removes a game.
- **No completion time is recorded.** The design records a completion time
  on a win or a loss. The code would record one only on a win, and a win
  throws first (`GameHandler.NoGameIsWon`).
- **The leaderboard sorts times as strings.** The design wants the fastest
  three times kept. `Database.addCompletionTime` (`src/core/database.ts:50-83`)
  calls `sort()` with no comparator, which orders numbers by their decimal
  strings, so a slower time can be kept (`Leaderboard.SlowerTimeKept`).
  Nothing in the source calls that function; the handler's call goes to
  `Mongo.addCompletionTime` instead (see "Left out").

## Model

| member | source | states |
|---|---|---|
| UnionTree.RootOf | src/utils/union-tree.ts:4-6 | following parent links from a node ends at a node whose parent is null |
| UnionTree.RootsOf | src/utils/union-tree.ts:4-6 | the partition: one root per node, each the root its node reaches |
| UnionTree.Merge | src/utils/union-tree.ts:8-10 | after a union, every node of the absorbed class has the new root and every other node keeps its root |
| UnionTree.ConnectWellFormed | src/utils/union-tree.ts:8-10 | on nodes whose roots differ, setting the parent of `b`'s root to `a` keeps the forest acyclic |
| UnionTree.ConnectMergesClasses | src/utils/union-tree.ts:8-10 | after `a.connect(b)` a node of `b`'s old class reaches `a`'s root, and any other node keeps its root |
| UnionTree.ConnectRoots | src/utils/union-tree.ts:8-10 | the roots after a connect are the old roots with `b`'s class merged into `a`'s |
| UnionTree.MergeConnectsExactly | src/utils/union-tree.ts:8-14 | after the merge `a` and `b` are connected; two nodes are connected iff they were connected before or each lies in one of the two merged classes |
| UnionTree.UnionForest.Classes | src/utils/union-tree.ts:1-6 | every node's representative is a root, and a node is a root iff its parent is null |
| UnionTree.UnionForest.constructor | src/utils/union-tree.ts:1-2 | `n` fresh trees, each with a null parent and each its own class |
| UnionTree.UnionForest.GetRoot | src/utils/union-tree.ts:4-6 | returns the node with a null parent that represents the class of `i` |
| UnionTree.UnionForest.IsConnected | src/utils/union-tree.ts:12-14 | true iff both nodes have the same root |
| UnionTree.UnionForest.Connect | src/utils/union-tree.ts:8-10 | only the parent of `b`'s root changes (to `a` itself, not `a`'s root); the classes become the merge of `b`'s class into `a`'s |
| MazeGenerator.ColumnEdgesContents | src/utils/generateMaze.ts:94-103 | the edges pushed for one column are exactly that column's internal `S` and `E` edges |
| MazeGenerator.EdgeListContents | src/utils/generateMaze.ts:93-104 | the edge list holds exactly the internal edges of the grid: every `S` edge below the first row and every `E` edge right of the first column |
| MazeGenerator.ColumnEdgesLength | src/utils/generateMaze.ts:94-103 | one column contributes `h - 1` south edges, plus `h` east edges when it is not the first |
| MazeGenerator.EdgeListLength | src/utils/generateMaze.ts:93-104 | there are `w*(h-1) + (w-1)*h` edges, each listed once |
| MazeGenerator.ShuffleListsAllEdges | src/utils/generateMaze.ts:105 | every permutation of the edge list lists every internal edge and nothing else |
| MazeGenerator.Node | src/utils/generateMaze.ts:109 | the forest node of `sets[x][y]` is in range |
| MazeGenerator.IdInjective | src/utils/generateMaze.ts:109 | distinct cells get distinct union trees |
| MazeGenerator.CellOfNode | src/utils/generateMaze.ts:109 | every forest node belongs to exactly one cell of the grid |
| MazeGenerator.MoveCoordinates | src/utils/generateMaze.ts:14-19 | the other end of an edge is one step back along exactly one axis: `E` decreases `x` and `S` decreases `y` |
| MazeGenerator.MoveCoordinatesIsOtherEnd | src/utils/generateMaze.ts:14-19 | `moveCoordinates` of an internal edge gives its other end, which is inside the grid |
| MazeGenerator.OpenWallsMember | src/utils/generateMaze.ts:117-124 | an edge is an open wall iff it is internal and its wall has been cleared |
| MazeGenerator.PathSurvivesOpening | src/utils/generateMaze.ts:117-124 | clearing walls never breaks a walk through open passages |
| MazeGenerator.ReversePath | src/utils/generateMaze.ts:117-124 | passages are two-way: a reversed walk is a walk |
| MazeGenerator.JoinPaths | src/utils/generateMaze.ts:117-124 | two walks that meet glue into one walk |
| MazeGenerator.InitialGrid | src/utils/generateMaze.ts:106-108 | the fresh grid has `width` rows of `height` tiles, the far edges closed and no wall open |
| MazeGenerator.KruskalInit | src/utils/generateMaze.ts:106-109 | all walls up with singleton classes satisfies the loop invariant |
| MazeGenerator.PathStaysInClass | src/utils/generateMaze.ts:111-127 | while every open wall lies within one class, no walk leaves its class |
| MazeGenerator.SameClassReach | src/utils/generateMaze.ts:111-127 | two cells of one class are joined by open passages |
| MazeGenerator.ClassesMatchPassages | src/utils/generateMaze.ts:111-127 | under the loop invariant, two cells share a union tree iff one can reach the other through open passages |
| MazeGenerator.MergeClassSet | src/utils/generateMaze.ts:117-118 | a union of two different classes removes exactly one class |
| MazeGenerator.UnionKeepsWallsWithinClasses | src/utils/generateMaze.ts:117-124 | opening the wall of the edge being joined keeps every open wall inside a class and the border walls up |
| MazeGenerator.UnionOpensOneWall | src/utils/generateMaze.ts:117-124 | joining two classes clears exactly the wall of that edge, which was closed before |
| MazeGenerator.OpeningClearsOnlyIt | src/utils/generateMaze.ts:119-123 | clearing one wall leaves every other wall as it was |
| MazeGenerator.UnionKeepsRoutes | src/utils/generateMaze.ts:117-124 | after a union every cell still has a walk through open passages to its class's root |
| MazeGenerator.KruskalUnion | src/utils/generateMaze.ts:117-124 | one successful union step preserves the loop invariant |
| MazeGenerator.EdgesJoinEverything | src/utils/generateMaze.ts:111-129 | once the two ends of every internal edge share a class, only one class is left |
| MazeGenerator.AllJoinedMerge | src/utils/generateMaze.ts:117-118 | a union keeps the edges already processed joined |
| MazeGenerator.KruskalDone | src/utils/generateMaze.ts:111-129 | after the loop the border is closed, exactly `w*h - 1` walls are open, and every cell reaches every other |
| MazeGenerator.ProcessEdge | src/utils/generateMaze.ts:112-124 | one iteration: the edge's wall is cleared iff its ends were in different classes; the invariant is kept and the edge ends up joined |
| MazeGenerator.RemoveWalls | src/games/maze-game.ts:136-150 | the loop (also inlined in the maze game) keeps the invariant and joins every edge of the order |
| MazeGenerator.GenerateMaze | src/utils/generateMaze.ts:89-130 | for any shuffle of the edges, the result is a perfect maze: every cell reaches every other, the border is closed, and there are `w*h - 1` passages |
| Maze.SizeInTable | src/games/maze-game.ts:20 | each size in `MAZE_SIZES` is non-empty and has no more rows than columns |
| Maze.Opposite | src/games/maze-game.ts:88-107 | the reverse arrow points from the neighbour back to the cell |
| Maze.Move | src/games/maze-game.ts:84-109 | a reaction leaves the player in place or moves them one cell in the arrow's direction, and never off an enclosed grid |
| Maze.MoveMatchesPassages | src/games/maze-game.ts:88-107 | on an enclosed grid with no more rows than columns, an arrow moves the player to the neighbour iff the wall between them is open |
| Maze.MoveReversible | src/games/maze-game.ts:88-107 | a move is undone by the opposite arrow |
| Maze.Play | src/games/maze-game.ts:84-109 | any sequence of reactions keeps the player on the grid |
| Maze.Arrows | src/games/maze-game.ts:88-107 | one arrow per step of a walk |
| Maze.PathIsPlayable | src/games/maze-game.ts:84-109 | every walk through open passages can be played as arrows |
| Maze.Winnable | src/games/maze-game.ts:84-109 | in a perfect maze every cell can be reached from every cell by reactions |
| Maze.SetupPlayable | src/games/maze-game.ts:41-44 | installing a generated perfect maze of the table size keeps the game's invariant |
| Maze.MovePlayable | src/games/maze-game.ts:84-109 | a move keeps the invariant |
| Maze.MazeGame.constructor | src/games/maze-game.ts:25-39 | no size, an empty grid, the player at `(0, 0)` |
| Maze.MazeGame.Setup | src/games/maze-game.ts:41-44 | a difficulty outside 1..3 throws a `TypeError`; otherwise the size of the table and a perfect maze of that size |
| Maze.MazeGame.Update | src/games/maze-game.ts:84-109 | before setup, destructuring the missing size throws a `TypeError`; otherwise the player makes the move `Move` computes and the maze is unchanged |
| Maze.MazeGame.GetStatus | src/games/maze-game.ts:74-82 | never a loss; a win iff the player is on the last row and the last column |
| Maze.MazeGame.CanWin | src/games/maze-game.ts:74-109 | once set up, some sequence of reactions wins |
| Hangman.Chunk | src/games/hangman-game.ts:139 | the rows read back in order give the items; every row except the last has exactly `size` items, and the last has at least one |
| Hangman.Letters | src/games/hangman-game.ts:136-138 | the 26 letters `A`..`Z` in order, none used |
| Hangman.LetterTable | src/games/hangman-game.ts:135-141 | `A`..`Z` in order in five full rows of five and a last row `Z`, all unused |
| Hangman.FlattenAt | src/games/hangman-game.ts:135-141 | cell `(r, c)` is one entry of the table read in order |
| Hangman.FlattenUpdate | src/games/hangman-game.ts:132 | marking one cell changes exactly one entry of the table read in order |
| Hangman.MissesBound | src/games/hangman-game.ts:121-132 | at most 26 letters can be missed |
| Hangman.MarkUsedMisses | src/games/hangman-game.ts:121-132 | marking an unused letter keeps the layout; it adds to the misses iff its lower-case form is not in the word |
| Hangman.Joined | src/games/hangman-game.ts:81 | `join('')` renders empty slots as nothing, so the text is no longer than the guess |
| Hangman.JoinedIsWord | src/games/hangman-game.ts:81 | a well-formed guess joins to the word iff every slot is revealed |
| Hangman.HangmanGame.constructor | src/games/hangman-game.ts:19-27 | an empty word, guess and table, no misses, the cursor at `(0, 0)` |
| Hangman.HangmanGame.Setup | src/games/hangman-game.ts:29-33 | the word is the drawn word, the guess has one empty slot per letter, the table is the generated one |
| Hangman.HangmanGame.GetStatus | src/games/hangman-game.ts:78-85 | a loss iff more than five misses; otherwise a win iff every letter is revealed |
| Hangman.HangmanGame.Update | src/games/hangman-game.ts:87-110 | before setup, reading a row of the empty table throws and nothing changes; the arrows move the cursor with wrap-around over the rows and the present cells; the check mark selects the letter under the cursor, with the effect stated for `SelectLetter`: a used letter changes nothing, otherwise the letter is marked, its slots are revealed or a miss is counted |
| Hangman.HangmanGame.SelectLetter | src/games/hangman-game.ts:112-133 | a row outside the table throws a `TypeError`, and a missing cell throws; a used letter changes nothing; otherwise every slot holding the letter is revealed, or a miss is counted, and the letter is marked used |
| Hangman.HangmanGame.MissCountBound | src/games/hangman-game.ts:121-132 | the miss count never exceeds 26 |
| Sudoku.Ordinal | src/games/sudoku-game.ts:27-46 | a letter or digit symbol stands for a value in `1..9` |
| Sudoku.EmojiValues | src/games/sudoku-game.ts:27-46 | the `i`-th letter and the `i`-th digit both stand for `i + 1` |
| Sudoku.ListedValue | src/games/sudoku-game.ts:5-46 | every listed symbol except the cross has a value, and every value is in `1..9` |
| Sudoku.GenerateBoard | src/games/sudoku-game.ts:107-117 | a `size` by `size` board of non-input tiles holding 9 |
| Sudoku.WrittenShaped | src/games/sudoku-game.ts:103-105 | a write at column at most 9 keeps nine rows of nine or ten tiles |
| Sudoku.StoreKeepsBuffer | src/games/sudoku-game.ts:90-98 | storing a value below index 2 fills that slot and advances the index |
| Sudoku.BackspaceKeepsBuffer | src/games/sudoku-game.ts:86-88 | the backspace empties the slot it steps back to |
| Sudoku.StoreLastKeepsBuffer | src/games/sudoku-game.ts:90-98 | a value in the last slot completes a buffer of three values |
| Sudoku.SudokuGame.constructor | src/games/sudoku-game.ts:59-65 | the generated 9×9 board, an empty buffer, index 0 |
| Sudoku.SudokuGame.Update | src/games/sudoku-game.ts:84-101 | an unlisted symbol changes nothing; the cross steps back; a value fills the buffer, and the third value is written to the board at the buffered row and column, after which the buffer is cleared |
| Sudoku.SudokuGame.Backspace | src/games/sudoku-game.ts:86-88 | the index steps back unless at 0, and the slot at the new index is emptied |
| Sudoku.SudokuGame.Store | src/games/sudoku-game.ts:89-99 | the value is stored at the index; at the third value the board write happens, the buffer is reset and the index wraps to 0 |
| Sudoku.SudokuGame.InsertValue | src/games/sudoku-game.ts:103-105 | row 9 is outside the board and throws a `TypeError`; otherwise the tile becomes a user tile holding the value, column 9 appending a tenth tile |
| Text.LowerAscii | src/games/hangman-game.ts:121 | agrees with `toLowerCase` on the letters `A`..`Z` it is applied to, giving the lower-case letter; other characters are left unchanged, which `toLowerCase` does not do for non-ASCII capitals |
| Text.DecimalString | src/core/state-manager.ts:36 | `toString()` of a counter: a non-empty string of digits |
| Text.PadStart | src/core/state-manager.ts:36 | `padStart(8, '0')`: zeros in front up to the width, a longer text unchanged |
| Text.ParseDecimalString | src/core/state-manager.ts:36 | reading the decimal string back gives the number |
| Text.DecimalStringLength | src/core/state-manager.ts:36 | a number below `10^k` has at most `k` digits |
| Pattern.IdAt | src/core/puzzle-label.ts:19 | `([0-9]{8}\|Loading)` captures eight digits, or `Loading` in any case |
| Pattern.RunEnd | src/core/puzzle-label.ts:19 | `.*` stops at the first line terminator and matches no line terminator |
| Pattern.Greedy | src/core/puzzle-label.ts:19 | a greedy group ends at a position where the rest of the pattern matches |
| Pattern.GreedyLongest | src/core/puzzle-label.ts:19 | a greedy group takes the longest text after which the rest matches |
| Pattern.GreedyResult | src/core/puzzle-label.ts:19 | no longer end would have matched, and no match means the rest matches nowhere |
| Pattern.MatchedId | src/core/puzzle-label.ts:19-20 | a successful match always carries an identifier |
| Pattern.LastSeparator | src/core/puzzle-label.ts:19 | no ` - ` after the one before the identifier can be followed by an identifier |
| Pattern.NameAndIdSplit | src/core/puzzle-label.ts:19-20 | a title with the prefix, no line break, and ` - ` plus an identifier at its end is split at that last ` - ` |
| PuzzleLabel.Create | src/core/puzzle-label.ts:2-12 | throws iff the name or the id contains ` - ` or the difficulty is outside 1..3 |
| PuzzleLabel.ParseGameTypeAndID | src/core/puzzle-label.ts:18-29 | no match throws a `TypeError`; a `Loading` identifier gives no game; an empty name throws `no game ID or name found`; otherwise exactly the two groups of the match |
| PuzzleLabel.CreateLoading | src/core/puzzle-label.ts:14-16 | the loading label contains `Loading` |
| PuzzleLabel.DigitIdMatches | src/core/puzzle-label.ts:19 | an eight-digit id is captured whole, and it has no space or line break |
| PuzzleLabel.CreateThenParse | src/core/puzzle-label.ts:10-28 | a label made by `create` with an eight-digit id and a name with no line break parses to the name with its bracketed difficulty, and the id |
| PuzzleLabel.LoadingParsesToNone | src/core/puzzle-label.ts:14-22 | a loading label parses to no game |
| PuzzleLabel.LongIdTruncated | src/core/puzzle-label.ts:11-28 | an id of more than eight digits parses back as its first eight digits |
| GameTitle.Create | src/core/game-title.ts:4-13 | throws iff the name or the id contains ` - ` |
| GameTitle.Parse | src/core/game-title.ts:15-25 | no match throws a `TypeError`; an empty name or difficulty throws `no game name, difficulty, or id found`; otherwise exactly the matched name, id and difficulty, with `isASCII` iff the type word is exactly `ASCII` |
| GameTitle.TypeWord | src/core/game-title.ts:10 | the type word is `ASCII` iff the game is drawn in ASCII, and `Normal` otherwise |
| GameTitle.Compose | src/core/game-title.ts:10-12 | the title starts `Puzzle - ` and is 18 characters longer than its four parts |
| GameTitle.MatchedTitleId | src/core/game-title.ts:16-17 | a successful match always carries an identifier |
| GameTitle.TypeWordMatches | src/core/game-title.ts:16 | the type word captured is the alternative the text spells |
| GameTitle.LastClose | src/core/game-title.ts:16 | no `) - ` after the difficulty is followed by an identifier |
| GameTitle.LastOpen | src/core/game-title.ts:16 | no ` (` after the name starts a difficulty |
| GameTitle.NameEnds | src/core/game-title.ts:16 | the greedy name group ends at the ` (` before the difficulty |
| GameTitle.TitleSplit | src/core/game-title.ts:16 | a composed title with no line break and no ` (` in the difficulty yields exactly its type word, name, difficulty and id as groups |
| GameTitle.ExactId | src/core/game-title.ts:16 | an eight-digit or `Loading` id is captured whole |
| GameTitle.ParseParts | src/core/game-title.ts:15-25 | such a title parses to its parts, with `isASCII` iff the type word is `ASCII` |
| GameTitle.CreateThenParse | src/core/game-title.ts:4-24 | `parse(create(data)) == data` for non-empty name and difficulty, no line breaks, no ` (` in the difficulty, and an eight-digit or `Loading` id |
| GameTitle.LongTitleIdTruncated | src/core/game-title.ts:16-25 | a title whose identifier has more than eight digits reads back with the identifier cut to its first eight, the other parts intact |
| GameTitle.ComposeRegroup | src/core/game-title.ts:10-12 | a ` (` inside the difficulty makes the same title as one at the end of the name |
| GameTitle.ParenInDifficulty | src/core/game-title.ts:16 | so such a difficulty is parsed with its first part moved into the name |
| GameTitle.LowerCaseAsciiIsNormal | src/core/game-title.ts:16-23 | `/i` matches `ascii`, yet the case-sensitive comparison reads it as a normal game |
| Registry.KindOf | src/core/game-map.ts:9-13 | a class exists iff the name is exactly `Sudoku`, `Hangman` or `Maze` |
| Registry.GameIdOf | src/core/state-manager.ts:36 | an identifier is at least eight characters, all decimal digits |
| Registry.GameIdValue | src/core/state-manager.ts:36 | the identifier reads back as the counter it was made from |
| Registry.GameIdInjective | src/core/state-manager.ts:36 | different counter values give different identifiers |
| Registry.GameIdLength | src/core/state-manager.ts:36 | below `10^8` the identifier has exactly eight digits |
| Registry.NextIdIssued | src/core/state-manager.ts:36 | the next identifier is one issued before the incremented counter |
| Registry.NextIdFresh | src/core/state-manager.ts:36-39 | in a well-formed registry the next identifier is in no bucket |
| Registry.ListValidLater | src/core/state-manager.ts:36 | incrementing the counter keeps the registry well formed |
| Registry.ListValidStore | src/core/state-manager.ts:29-39 | storing a well-formed bucket keeps the registry well formed |
| Registry.BucketValidStore | src/core/state-manager.ts:39 | adding a game under its own fresh id keeps its bucket well formed |
| Registry.ListValidRemove | src/core/state-manager.ts:54 | deleting a key keeps the registry well formed |
| Registry.Lookup | src/core/state-manager.ts:43-48 | an unknown guild throws `getGameInstance(): invalid guild ID ...`; otherwise the game under the id, or none iff the key is absent |
| Registry.LookupFindsOwnId | src/core/state-manager.ts:43-48 | in a well-formed registry a found game carries the requested id, which the counter has issued |
| Registry.StateManager.constructor | src/core/state-manager.ts:19-22 | no guilds, counter 0, no database calls |
| Registry.StateManager.CreateGameInstance | src/core/state-manager.ts:24-41 | a missing bucket is made first, and the guild is looked up and created in the database if needed; the counter always advances; an unknown game name throws a `TypeError` and leaves the new bucket; otherwise the new game, with the padded id and the named class, is stored under its id and nothing else changes |
| Registry.StateManager.AddGuild | src/core/state-manager.ts:29-35 | adds an empty bucket and records the database existence check, plus a create when the guild is not there |
| Registry.StateManager.GetGameInstance | src/core/state-manager.ts:43-48 | a found game carries the requested id |
| Registry.StateManager.RemoveGameInstance | src/core/state-manager.ts:50-55 | an unknown guild throws and changes nothing; otherwise exactly that key is removed from the guild's bucket |
| LegacyRegistry.LegacyKindOf | src/state-manager.ts:27-29 | a class exists iff the name is exactly `Sudoku` |
| LegacyRegistry.StateManager.constructor | src/state-manager.ts:22-25 | no guilds, counter 0 |
| LegacyRegistry.StateManager.CreateGameInstance | src/state-manager.ts:31-40 | the bucket is made when missing and the counter always advances; a name other than `Sudoku` throws `GameClass is not a constructor`; otherwise a sudoku game is stored under the padded id |
| LegacyRegistry.StateManager.GetGameInstance | src/state-manager.ts:42-47 | a found game carries the requested id |
| LegacyRegistry.StateManager.RemoveGameInstance | src/state-manager.ts:49-54 | an unknown guild throws and changes nothing; otherwise exactly that key is removed |
| GameHandler.ParseGameNameAndID | src/core/game-handler.ts:100-114 | no embed throws; a first title containing `Loading` gives null; a failed match throws a `TypeError`; an empty name throws `no game ID or name found`; otherwise exactly the match's name and its eight-digit id |
| GameHandler.ReadStatus | src/core/game-handler.ts:51 | reading `{ status }` throws iff the game is a sudoku, gives a status iff it is a maze, and that status is the engine's |
| GameHandler.Decide | src/core/game-handler.ts:38-64 | a title that fails to parse throws its error; a game ends iff the title parses, the game is in its guild's bucket, it is a maze and its status is a loss, and the game ended is the parsed one |
| GameHandler.HandleGameUpdate | src/core/game-handler.ts:38-64 | a throw or an ignored reaction leaves the registry as it was; an ended game is removed from its guild's bucket and no longer found |
| GameHandler.UnknownGuildThrows | src/core/game-handler.ts:43 | a parsed title for a guild with no bucket throws `getGameInstance(): invalid guild ID ...` |
| GameHandler.MazeStatusDecides | src/core/game-handler.ts:51-62 | for a registered maze a win throws `gameInstance.getElapsedTimeInMilliseconds is not a function`, a loss ends that game, and a pending game is left alone |
| GameHandler.NoGameIsWon | src/core/game-handler.ts:52-59 | no reaction with a win status ends a game |
| GameHandler.LoadingTitleThrows | src/core/game-handler.ts:42 | a reaction on a loading label throws when the null is destructured, whatever the registry holds |
| GameHandler.OnlyMazeFinishes | src/core/game-handler.ts:51-62 | a registered hangman game is always ignored and a sudoku game always throws |
| GameHandler.MissingGameIgnored | src/core/game-handler.ts:43-47 | a game not in its guild's bucket is left alone |
| GameHandler.ReadsLabelTitle | src/core/game-handler.ts:106-113 | a `PuzzleLabel` title reads back as the name with its bracketed difficulty, and the id |
| GameHandler.ReadsGameTitle | src/core/game-handler.ts:106-113 | a `GameTitle` title reads back with the type word, the name and the bracketed difficulty together as the name |
| Leaderboard.DifficultyKey | src/core/database.ts:55-57 | the key is the difficulty, with `ASCII` appended for an ASCII game |
| Leaderboard.DifficultyKeysCollide | src/core/database.ts:55-57 | the standard difficulty `EasyASCII` and the ASCII form of `Easy` share a key |
| Leaderboard.DifficultyKeysApart | src/core/database.ts:55-57 | the ASCII and standard keys of one difficulty are always different |
| Leaderboard.TimeLeTotal | src/core/database.ts:69 | the default sort order is total |
| Leaderboard.TimeLeTrans | src/core/database.ts:69 | the default sort order is transitive |
| Leaderboard.TimeLeAntisym | src/core/database.ts:69 | the default sort order is antisymmetric on numbers |
| Leaderboard.Insert | src/core/database.ts:69 | inserting into a sorted list gives a sorted list with the entry added |
| Leaderboard.SortByText | src/core/database.ts:69 | `sort()` gives a permutation of the list in decimal-string order |
| Leaderboard.SortedUnique | src/core/database.ts:69 | two sorted permutations of one list are equal, so the sort result does not depend on the algorithm |
| Leaderboard.UpdatedTimes | src/core/database.ts:67-76 | a list of at most three stays at most three, one of three stays three; any other length grows by the new time at its end |
| Leaderboard.UpdatedEntries | src/core/database.ts:67-76 | the entries change by at most one: the new time is added to a short list; in a full list the string-order last entry is replaced iff the new time is numerically smaller |
| Leaderboard.UpdatedOrder | src/core/database.ts:68-73 | a full list comes out with its first two in sort order, and wholly sorted when nothing is replaced |
| Leaderboard.SlowerTimeKept | src/core/database.ts:68-73 | of 9, 10 and 100, the sort keeps 9 last, so a new time of 50 is dropped and the slower 100 stays |
| Leaderboard.GameTimes.constructor | src/core/database.ts:60 | a game's stored lists by difficulty key |
| Leaderboard.GameTimes.AddCompletionTime | src/core/database.ts:50-83 | a key with no list throws on reading its length and changes nothing; otherwise only the list under the key changes, to its updated form |

## Left out

- Rendering is left out, as are all message I/O and the Discord API. This covers embeds, `getGridString`, `drawMazeASCII`, the hangman and sudoku pictures, sending and editing messages, and adding reactions. None of it changes game state.
- The `TypeError` messages are V8's: destructuring a `null` result reads `<callee> is not a function or its return value is not iterable`. An engine other than V8, or a build that compiles destructuring to ES5, words these errors differently (`Cannot read properties of null`, for example); only the error kind is certain.
- Clocks are left out. `startTime` is not modelled. The engines' `Game` has no `getElapsedTimeInMilliseconds`, so reading the elapsed time is modelled as the `TypeError` it throws.
- `async`/`await` and interleaving are left out. Calls between two awaits are treated as atomic.
- Randomness is a parameter. `randomWords()` is the word passed to `HangmanGame.Setup`, and `_.shuffle` is a permutation passed to `GenerateMaze`.
- Hangman.HangmanGame.Setup: requires a game that has not been set up. The source would regenerate the table on a second call, and that case is not modelled.
- PuzzleLabel.Create: the difficulty is an `int`. The source's `number` also lets a fractional value such as 2.5, or `NaN`, pass the range test at `src/core/puzzle-label.ts:7`, and the label then names the difficulty `(undefined)` at lines 10-11; that case is not modelled.
- GameHandler.ParseGameNameAndID: the embed titles are strings. A first embed with no title makes `includes` throw a `TypeError` at `src/core/game-handler.ts:103`; that case is not modelled.
- Maze.MoveMatchesPassages: requires no more rows than columns, as in every size of `MAZE_SIZES`. The down move compares the row with the column count, so the walls alone decide it only under that condition.
- Maze.MoveReversible: same requirement as `MoveMatchesPassages`.
- Maze.MazeGame.Setup: the difficulty is an `int`. Non-integer difficulties, and values arriving as `args` objects, are not modelled.
- Sudoku.SudokuGame.InsertValue: requires the column to be at most 9, which is all a buffered value can be. Columns far past the end would leave holes in a JavaScript array, and that case is not modelled.
- Leaderboard.GameTimes.AddCompletionTime: times are natural numbers. Fractional times, and the branch for a game with no stored record yet, are left out. That branch builds from `getDefaultGame`, which `src/core/database.ts:4` imports but `src/models/guild.ts` does not export.
- Leaderboard.GameTimes: the record keyed by difficulty is how `src/core/database.ts:67` reads a game's entry, not what is stored. `src/models/guild.ts:9-12,20` declares `gameCompletionTimes` as a map from a name to a plain list of numbers.
- The rest of `addCompletionTime` is left out: loading the guild document, a guild missing from the database, and saving it.
- The handler's call `Mongo.addCompletionTime(guildID, gameName, elapsedTime)` (`src/core/game-handler.ts:55`) is left out. It follows the elapsed-time read that throws, so no reaction reaches it. Were it reached, it would append the time to an unbounded, unsorted list stored under the parsed title text (`src/core/mongo.ts:44-55`). The three-best rule that `Leaderboard` models belongs to `Database.addCompletionTime` (`src/core/database.ts:50-83`), which has no caller.
- The loss message (`src/core/game-handler.ts:61`) and the embed edit before the status is read are message I/O; only the removal of the lost game is modelled.
- GameHandler.HandleGameUpdate takes the status the engine reports after its update as a parameter. Errors thrown by the engine's own `update` or `generateEmbed` during a reaction are therefore not part of this method. They are modelled in the engines' `Update` methods.
- Inherited property names of a JavaScript object (`constructor`, `toString`, ...) are treated as ordinary absent keys. This holds both for game names looked up in `GAME_MAP` and in the legacy `StateManager.gameMap` (`src/state-manager.ts:27-29`), and for guild IDs used as keys of `gameList`. In JavaScript they would reach `Object.prototype`. For example, `gameList['constructor']` is truthy at `src/core/state-manager.ts:29`, so no bucket is made.
- Registry.StateManager.CreateGameInstance and LegacyRegistry.StateManager.CreateGameInstance: the counter is taken to be unbounded. In JavaScript it is a `number` (`src/core/state-manager.ts:11`, `src/state-manager.ts:10`), and `counter++` stops advancing at 2^53. From then on every call hands out the same id and overwrites the stored game. `Registry.NextIdFresh` and `Registry.GameIdInjective` hold for the unbounded counter only.
- Sudoku has no win check in its engine, so there is nothing to model for one.
- `GameDifficulty` and `chunkArray` are not part of this model. `Hangman.Chunk` stands for `chunkArray`, from its use.
- `handleGameCreation`, `handleGameWin`, `formatElapsedTime` and `createLoadingEmbed` in `src/core/game-handler.ts`, the other embed helpers and the bot's wiring are outside the modelled core; they only build or send messages.

