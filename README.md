# Strooped: the grid, the tiles and the session, in Dafny

Strooped is a Stroop-effect tapping game. A 3×3 grid shows a prompt tile in
the centre: a colour word drawn in some ink. The eight tiles around it show
colour words in black. The player must tap the tile whose word names the
prompt's ink.

- A correct tap scores a point and refills the health bar.
- Every fifth point, up to 100, speeds up the health decay.
- A wrong tap ends the game. By design, running out of health ends it too.
  In this snapshot, however, health never decays (see "A property of this
  snapshot" below), so that reset is never reached.
- When a game ends, the high score is committed and the session restarts.

This project models the three classes that do this work and proves what they
promise:

- the tile grid and its palette shuffle (`Strooped/TileGrid.swift`);
- the tile (`Strooped/ColorTile.swift`);
- the scene's session state machine (`Strooped/GameScene.swift`).

## How the program maps onto the model

- **Colors** (`colors.dfy`): the `Color` enumeration and its string raw
  values, with the failable initialiser a string-backed enumeration has.
- **Statics** (`statics.dfy`): the program keeps two process-wide static
  variables, `ColorTile.selectedColor` and `GameScene.gameState`. Here they
  are the two fields of one shared `Statics` object. The scene holds a
  reference to it. The tile's and the grid's touch handlers, and the grid's
  `CheckTouch`, receive it as a parameter.
- **ColorTiles** (`color_tile.dfy`): the `ColorTile` class, with its
  fields, initialiser, `setValue` and touch handler. A touch writes the
  shared selection: a normal tile reports its word, the main tile reports
  `Null`.
- **Shuffle** (`shuffle.dfy`): the forward Fisher–Yates shuffle of the
  `MutableCollection` extension.
  - `ShuffleInPlace` runs it in place on an `array`. It takes one offset
    for every position except the last. `Shuffled`/`ShuffleFrom` specify it.
  - `ShuffledCopy` is the `shuffled()` extension: it copies, shuffles the
    copy and returns it.
- **TileGrids** (`tile_grid.dfy`): the `TileGrid` class.
  - `tileArray` is a sequence of columns. `mainTile` is the prompt tile.
  - `color` is the palette.
  - A ghost `cells` sequence lists the nine tiles in column-major order, so
    cell `k` is column `k / 3`, row `k % 3`, and the centre is cell 4.
  - `Values()` is what the tiles show. `Layout(main, p)` is the settled
    layout: the prompt at the centre, and palette entry `i` in black ink on
    the `i`-th other cell.
  - The initialiser's two loops and loop body are the methods `Populate`,
    `CreateColumn` and `CreateTile`. `CreateColumn` collects a column's
    three tiles and `Populate` appends the column. In the program
    `changeMainTile` runs halfway through the fill, but it does not read
    `tileArray`, so this order gives the same result.
- **GameScenes** (`game_scene.dfy`): the scene.
  - Its scalar state, together with the game state, is the value
    `Session`.
  - Each event is a function on sessions: `Updated` for one frame,
    `Tapped` for the scene's reaction to a tap, `TapSession` for a whole
    tap. The `GameScene` class's methods are proved to follow these
    functions.
  - A tap is modelled in its intended order:
    1. the tile under it reports its selection;
    2. the grid judges the selection, redraws the prompt and reshuffles;
    3. the scene scores the tap or resets.

## External inputs

Random numbers, the clock and storage become parameters:

- **Random draws:** every `arc4random_uniform(n)` becomes an index supplied
  by the caller and required to be below `n`.
  - The prompt's ink and word draws are `inkDraw` and `wordDraw`, each below
    the number of non-null palette entries.
  - The shuffle's offsets are `d`, with `d[i] < n - i`.
- **The frame clock:** `update`'s time argument is unused and does not
  appear.
- **The stored high score:** the high score in `UserDefaults` is the
  scene's `highScore` field. The constructor takes the value already stored.

## A property of this snapshot

Only `Ready` and `GameOver` are ever assigned to the game state, and a state
of `GameOver` never outlives the event that set it:

- a wrong tap's `GameOver` is reset by the scene in the same tap;
- `update` resets its own `GameOver` before it returns.

Starting from `Ready`, the state therefore stays `Ready` for ever
(`ReadyIsStable`). `update` returns at once in `Ready`, so health never
decays in a reachable session, and the health-out reset is never taken. The
model keeps the decay and that reset exactly as written and proves them
correct for any session outside `Ready`.

## Model

| member | source | states |
|---|---|---|
| `Colors.RawValue` | Strooped/ColorTile.swift:13-23 | A colour's raw value is empty exactly for `null`; every other raw value is a word of at least three letters |
| `Colors.FromRawValue` | Strooped/ColorTile.swift:13-23 | The raw-value initialiser only ever returns a case whose raw value is the given string |
| `Colors.RawValueRoundTrip` | Strooped/ColorTile.swift:13-23 | Reading a colour's raw value back gives that colour |
| `Colors.RawValueInjective` | Strooped/ColorTile.swift:13-23 | The nine raw values are pairwise distinct |
| `Statics.Statics.constructor` | Strooped/GameScene.swift:23 | The shared state starts in `ready` with a `null` selection (the selection's initial value is at Strooped/ColorTile.swift:36) |
| `ColorTiles.SelectionOf` | Strooped/ColorTile.swift:71-81 | The colour a touch reports is a normal tile's word (never its ink); the main tile reports `null` |
| `ColorTiles.ColorTile.constructor` | Strooped/ColorTile.swift:38-69 | A new tile holds exactly the given ink, word and main flag, `isMain` defaults to false, and the label shows the word's raw value |
| `ColorTiles.ColorTile.SetValue` | Strooped/ColorTile.swift:83-104 | Stores exactly the given ink, word and main flag (main defaulting to false) and sets the label text to the word's raw value |
| `ColorTiles.ColorTile.TouchesBegan` | Strooped/ColorTile.swift:71-81 | A normal tile sets the shared selection to its word, the main tile sets it to `null`; no other state changes |
| `Shuffle.Swap` | Strooped/TileGrid.swift:22 | Exchanging positions `i` and `j` puts each one's old element at the other and leaves every other position as it was |
| `Shuffle.ShuffleFrom` | Strooped/TileGrid.swift:18-23 | The loop from position `i` on keeps the length; its other properties are stated by `ShuffleFromPermutes`, `ShuffledPrefixFixed` and `ZeroOffsetsUnchanged` |
| `Shuffle.SwapPermutes` | Strooped/TileGrid.swift:22 | Exchanging two positions preserves the multiset of elements |
| `Shuffle.ShuffleFromPermutes` | Strooped/TileGrid.swift:14-24 | The shuffle from any position onward is a permutation of its input |
| `Shuffle.Shuffled` | Strooped/TileGrid.swift:14-24 | The shuffle's result has the input's length and the input's multiset of elements |
| `Shuffle.ShortUnchanged` | Strooped/TileGrid.swift:15-16 | A collection of 0 or 1 elements is returned unchanged |
| `Shuffle.ZeroOffsetsUnchanged` | Strooped/TileGrid.swift:20 | Offsets that are all 0 perform no swap, so the collection is unchanged |
| `Shuffle.ShuffledPrefixFixed` | Strooped/TileGrid.swift:18-23 | Once the loop has passed position `k`, later steps never change that position |
| `Shuffle.ShuffleInPlace` | Strooped/TileGrid.swift:14-24 | The in-place loop leaves the array equal to the specified shuffle of its old contents, which is a permutation of them |
| `Shuffle.ShuffledCopy` | Strooped/TileGrid.swift:29-33 | `shuffled()` returns the shuffle of a copy of the source: a permutation of it, with the source itself untouched |
| `TileGrids.Seed` | Strooped/TileGrid.swift:45 | The palette's initial value has eight slots, four of them `null` |
| `TileGrids.SeedPaletteOk` | Strooped/TileGrid.swift:45 | The seed palette holds four `null`s and red, blue, green and yellow once each |
| `TileGrids.Candidates` | Strooped/TileGrid.swift:119-126 | The collected prompt colours are exactly the non-null palette entries, and there are no more of them than palette slots |
| `TileGrids.CandidatesMultiset` | Strooped/TileGrid.swift:119-126 | The collected colours are the palette's entries with every `null` removed, counted with multiplicity |
| `TileGrids.PaletteCandidates` | Strooped/TileGrid.swift:122-129 | For any palette the game can hold, the non-null entries are exactly red, blue, green and yellow, so the draw range is never empty |
| `TileGrids.ShuffleKeepsPalette` | Strooped/TileGrid.swift:134 | Shuffling a palette the game can hold gives a palette the game can hold, with the same candidate colours |
| `TileGrids.DrawnPrompt` | Strooped/TileGrid.swift:128-129 | A drawn prompt is main, and its ink and word are each some non-null palette entry |
| `TileGrids.Layout` | Strooped/TileGrid.swift:55-85 | A settled grid has nine cells, with the prompt at the centre cell (column 1, row 1) |
| `TileGrids.LayoutCells` | Strooped/TileGrid.swift:73-74 | Palette entry `i` lands, in black ink and not main, on the `i`-th cell other than the centre, counting column-major; the reshuffle writes the same cells (Strooped/TileGrid.swift:136-144) |
| `TileGrids.MainCountNone` | Strooped/TileGrid.swift:67-75 | Cells none of which is main contain no main tile |
| `TileGrids.MainCountSingle` | Strooped/TileGrid.swift:67-75 | Cells of which exactly one is main contain exactly one main tile |
| `TileGrids.LayoutHasOneMain` | Strooped/TileGrid.swift:67-75 | A settled grid has exactly one main tile, at column 1 / row 1 |
| `TileGrids.CheckOutcome` | Strooped/TileGrid.swift:105-115 | A `null` selection leaves the state alone; otherwise the state becomes `ready` exactly when the selection equals the prompt's ink, and `gameOver` exactly when it does not |
| `TileGrids.AnswerExists` | Strooped/TileGrid.swift:117-145 | After a prompt is drawn from the palette and the palette is laid out, some normal tile shows the word of the prompt's ink, and touching it is judged a match |
| `TileGrids.TouchingNormalCell` | Strooped/TileGrid.swift:105-115 | Touching a blank normal tile changes nothing; touching a worded one is judged `ready` exactly when its word is the prompt's ink |
| `TileGrids.TileGrid.HasAnswer` | Strooped/TileGrid.swift:105-145 | Every valid grid has a normal tile whose touch is judged a match against the prompt's ink |
| `TileGrids.TileGrid.SettledLayout` | Strooped/TileGrid.swift:55-85 | A settled grid's tiles show exactly the layout of its prompt and palette |
| `TileGrids.TileGrid.constructor` | Strooped/TileGrid.swift:47-87 | The new grid is valid. Its tiles are fresh and show the layout: the drawn prompt at the centre, and black-ink palette entries 0..7 in column-major order elsewhere |
| `TileGrids.TileGrid.Populate` | Strooped/TileGrid.swift:52-86 | The outer loop leaves three columns of three fresh, distinct tiles, the centre one recorded as `mainTile`, each holding its cell of the layout |
| `TileGrids.TileGrid.CreateColumn` | Strooped/TileGrid.swift:57-85 | One pass of the outer loop makes three fresh, distinct tiles holding their cells of the layout and advances the palette index past them |
| `TileGrids.TileGrid.CreateTile` | Strooped/TileGrid.swift:63-75 | The loop body makes a fresh tile: at the centre the main tile with a drawn prompt, recorded as `mainTile`; elsewhere the palette entry in black ink |
| `TileGrids.TileGrid.ChangeMainTile` | Strooped/TileGrid.swift:117-130 | The main tile takes the prompt whose ink and word are the drawn non-null palette entries and stays main; only the main tile changes |
| `TileGrids.TileGrid.CheckTouch` | Strooped/TileGrid.swift:105-115 | The game state becomes the judgement of the shared selection against the main tile's ink |
| `TileGrids.TileGrid.RandomizeNormalTiles` | Strooped/TileGrid.swift:132-145 | The palette becomes its shuffle and stays a palette the game can hold. The main tile is unchanged, and the other tiles show the new palette in column-major order in black ink |
| `TileGrids.TileGrid.WriteNormalTiles` | Strooped/TileGrid.swift:136-144 | The nested loops give every non-main tile, in column-major order, the next palette entry in black ink, and leave the main tile alone |
| `TileGrids.TileGrid.TouchesBegan` | Strooped/TileGrid.swift:89-103 | With a `null` selection nothing changes. Otherwise: the state becomes the judgement against the old prompt's ink; a new prompt is drawn from the old palette; the palette is shuffled; the grid shows the new layout |
| `GameScenes.Capped` | Strooped/GameScene.swift:48-56 | The stored health is the lesser of the written value and 1.0, so it never exceeds 1.0 |
| `GameScenes.Ramps` | Strooped/GameScene.swift:95 | A score that speeds up the decay is at most 100, and a positive one is at least 5 |
| `GameScenes.IncrementFor` | Strooped/GameScene.swift:94-97 | The decay speed that belongs to a score lies between 0.005 and 0.045 (at most twenty ramps) |
| `GameScenes.IncrementStep` | Strooped/GameScene.swift:94-97 | Scoring one point adds 0.002 to the closed-form speed exactly when the new score is a positive multiple of 5 up to 100, and nothing otherwise |
| `GameScenes.Committed` | Strooped/GameScene.swift:101-103 | Committing gives the larger of the score and the high score, so the high score never decreases |
| `GameScenes.Restarted` | Strooped/GameScene.swift:100-115 | A reset gives score 0, health 1, speed 0.005 and state `ready` (consistent with the closed form), and a high score no lower than before |
| `GameScenes.Scored` | Strooped/GameScene.swift:87-97 | A scored tap adds exactly one point and keeps the high score; its health and speed are stated by `ScoredOk` |
| `GameScenes.ScoredOk` | Strooped/GameScene.swift:86-98 | A scored tap adds exactly one point, sets health to 1, keeps the high score, and keeps the speed equal to its closed form |
| `GameScenes.Tapped` | Strooped/GameScene.swift:86-115 | After the scene's reaction the state is never `gameOver`, and the high score has not decreased |
| `GameScenes.TappedOk` | Strooped/GameScene.swift:86-115 | The scene's reaction to a tap keeps score ≥ 0, 0 ≤ health ≤ 1 and the speed's closed form |
| `GameScenes.TapSession` | Strooped/GameScene.swift:73-119 | After a whole tap the state is never `gameOver`, and the high score has not decreased |
| `GameScenes.TapOutcomes` | Strooped/GameScene.swift:86-115 | On a settled grid in `ready`: tapping the word of the prompt's ink scores; any other word commits the high score and resets; the prompt, a blank tile or a miss change nothing |
| `GameScenes.ReadyIsStable` | Strooped/GameScene.swift:100-126 | From `ready`, a tap always leaves the state `ready`, and an update changes nothing |
| `GameScenes.Decayed` | Strooped/GameScene.swift:128-140 | One frame's decay strictly lowers health by at most the current speed; above 0.15 it subtracts exactly the speed |
| `GameScenes.Updated` | Strooped/GameScene.swift:121-163 | An update in `ready` changes nothing, never lowers the high score, and does not end in `gameOver` unless it started there |
| `GameScenes.UpdatedOk` | Strooped/GameScene.swift:142-161 | An update keeps the session invariant. Outside `ready` it resets exactly when the decayed health is below 0; otherwise it keeps the score and lowers health strictly, by at most the speed |
| `GameScenes.GameScene.constructor` | Strooped/GameScene.swift:59-70 | The scene starts at score 0, health 1 and speed 0.005, with the stored high score, and a fresh valid grid built on the palette |
| `GameScenes.GameScene.SetHealth` | Strooped/GameScene.swift:48-56 | Writing health through the observer stores the capped value |
| `GameScenes.GameScene.SaveHighScore` | Strooped/GameScene.swift:165-167 | Saving stores the current score as the high score |
| `GameScenes.GameScene.Update` | Strooped/GameScene.swift:121-163 | The frame handler changes the session exactly as `Updated` says and keeps the session invariant |
| `GameScenes.GameScene.TouchesBegan` | Strooped/GameScene.swift:73-119 | The tap handler keeps the scene valid and changes the session exactly as `TapSession` says for the grid it saw. A hit tile's selection becomes the tile's report |
| `GameScenes.GameScene.DispatchTap` | Strooped/GameScene.swift:76-84 | The nodes under the tap run, tile first then grid; `hitTile` is whether a tile was hit; the grid changes as its own touch handler says |
| `GameScenes.GameScene.ReportTile` | Strooped/GameScene.swift:79-80 | The tile at the hit cell reports its selection, and nothing in the grid changes |
| `GameScenes.GameScene.ScoreOrReset` | Strooped/GameScene.swift:86-115 | The scene's reaction after the nodes ran changes the session exactly as `Tapped` says and keeps the session invariant |

## Left out

- Rendering and layout (SpriteKit): textures, fonts, `zPosition`, label
  nodes, anchor points, the health bar's `xScale`, and the score labels.
  None of them feeds back into the game's logic.
- The tile position arithmetic (Strooped/TileGrid.swift:78) and the
  `getColor` mapping to `UIColor` (Strooped/ColorTile.swift:112-134). Both
  are presentation only.
- Hit-testing with `nodes(at:)` and the type-name test
  (Strooped/GameScene.swift:79-84).
  - The framework decides which nodes lie under a point, and in which order
    it hands them over. A tap is therefore given as already resolved: one
    tile, dispatched to that tile and then to the grid, or no node at all.
  - A tap that lands on the grid between tiles is not modelled. There the
    grid alone would run, judging whatever selection an earlier tap left
    behind, and the scene would not score.
- `UserDefaults` persistence: the high score is a plain field, whose initial
  value is a constructor parameter.
- Randomness: `arc4random_uniform` is replaced by caller-supplied indices
  bounded by the count. Uniformity is not modelled.
- Floating point: `CGFloat` health and speed are `real`. The model does not
  capture rounding, and the band boundaries are exact.
- Integer overflow: Swift traps if `score` overflows `Int`; the model's
  score is an unbounded integer.
- The `NSCoder` initialisers. The `title` and `playing` states exist in the
  enumeration but are never assigned.
- TileGrids.TileGrid.RandomizeNormalTiles: the palette is a static array with
  value semantics, held here as a sequence field of the one grid.
  - The shuffle runs in place on a fresh array copy, which is then assigned
    back, so the update is not made in the static's own storage. No other
    reference can observe the difference.
  - A second grid sharing the static palette is not modelled.
- GameScenes.GameScene.TouchesBegan: its contract states the session, the
  selection and the scene's invariant. The grid's redraw and reshuffle on a
  tap are stated by `DispatchTap`, which it calls, rather than repeated.
- GameScenes.GameScene.Update: its contract states the session and its
  invariant. The grid is left unchanged only because the grid is not in its
  modifies clause.
- GameScenes.GameScene.constructor: requires that the palette it builds on
  is one the game can hold (a rearrangement of the seed). The seed itself is
  one (`SeedPaletteOk`).
