/**
 * The 3x3 grid of tiles. The centre cell holds the prompt ("main") tile;
 * the other eight show, in column-major order, the words of the shared
 * 8-slot palette in black ink. A touch that reported a colour is judged
 * against the prompt's ink, then the prompt is redrawn and the palette is
 * reshuffled onto the eight other tiles.
 */
module TileGrids {
  import opened Colors
  import opened Statics
  import opened ColorTiles
  import opened Shuffle

  // ---------------------------------------------------------------------
  // The palette
  // ---------------------------------------------------------------------

  /** The palette's initial arrangement: four colours and four empty slots. */
  function Seed(): (p: seq<Color>)
    ensures |p| == 8
    ensures multiset(p)[Null] == 4
  {
    [Null, Red, Null, Blue, Green, Null, Yellow, Null]
  }

  /** The colours of the seed, with their multiplicities. */
  ghost function SeedColors(): multiset<Color>
  {
    multiset{Null, Null, Null, Null, Red, Blue, Green, Yellow}
  }

  /** A palette the game can hold: a rearrangement of the seed. */
  ghost predicate PaletteOk(p: seq<Color>)
  {
    |p| == 8 && multiset(p) == SeedColors()
  }

  /** The seed itself is a palette the game can hold. */
  lemma SeedPaletteOk()
    ensures PaletteOk(Seed())
  {
    var s := Seed();
    assert s == [Null, Red] + [Null, Blue] + [Green, Null] + [Yellow, Null];
  }

  /** The non-null entries of `p`, in order: the colours a prompt is drawn from. */
  function Candidates(p: seq<Color>): (r: seq<Color>)
    ensures |r| <= |p|
    ensures forall c :: c in r <==> c in p && c != Null
  {
    if p == [] then []
    else
      assert p == p[..|p| - 1] + [p[|p| - 1]];
      Candidates(p[..|p| - 1]) + (if p[|p| - 1] != Null then [p[|p| - 1]] else [])
  }

  /** The candidates are the palette's colours with every `Null` struck out. */
  lemma {:induction false} CandidatesMultiset(p: seq<Color>)
    ensures multiset(Candidates(p)) == multiset(p)[Null := 0]
  {
    if p != [] {
      var init := p[..|p| - 1];
      assert p == init + [p[|p| - 1]];
      CandidatesMultiset(init);
    }
  }

  /**
   * Every palette the game can hold offers exactly the four seed colours as
   * candidates, so the prompt's two draws always have a colour to pick.
   */
  lemma PaletteCandidates(p: seq<Color>)
    requires PaletteOk(p)
    ensures multiset(Candidates(p)) == multiset{Red, Blue, Green, Yellow}
    ensures |Candidates(p)| == 4
  {
    CandidatesMultiset(p);
    assert SeedColors()[Null := 0] == multiset{Red, Blue, Green, Yellow};
    assert |multiset(Candidates(p))| == 4;
  }

  /** Shuffling is the only change the palette sees, and it keeps the palette valid. */
  lemma ShuffleKeepsPalette(p: seq<Color>, d: seq<nat>)
    requires PaletteOk(p) && ValidOffsets(|p|, d)
    ensures PaletteOk(Shuffled(p, d))
    ensures forall c :: c in Candidates(Shuffled(p, d)) <==> c in Candidates(p)
  {
    var q := Shuffled(p, d);
    forall c
      ensures c in q <==> c in p
    {
      assert c in q <==> c in multiset(q);
      assert c in p <==> c in multiset(p);
    }
  }

  /** The prompt the two draws pick: ink and word each indexed into the candidates. */
  function DrawnPrompt(p: seq<Color>, inkDraw: nat, wordDraw: nat): (v: TileValue)
    requires inkDraw < |Candidates(p)| && wordDraw < |Candidates(p)|
    ensures v.isMain
    ensures v.textColor in p && v.textColor != Null
    ensures v.textValue in p && v.textValue != Null
  {
    TileValue(Candidates(p)[inkDraw], Candidates(p)[wordDraw], true)
  }

  // ---------------------------------------------------------------------
  // The layout of the grid
  // ---------------------------------------------------------------------

  /** The column-major position of the centre cell (1, 1). */
  const MainCell: nat := 4

  /** How many of the first `n` column-major cells are normal (non-centre) cells. */
  function NormalsBefore(n: nat): (r: nat)
    ensures r <= n
    ensures n < 9 ==> r < 8
  {
    if n > MainCell then n - 1 else n
  }

  /** The palette slot whose word column-major cell `k` (not the centre) shows. */
  function PaletteSlot(k: nat): (i: nat)
    requires k < 9 && k != MainCell
    ensures i < 8
  {
    NormalsBefore(k)
  }

  /** The normal tile that shows word `w`: black ink, not main. */
  function NormalTile(w: Color): TileValue
  {
    TileValue(Black, w, false)
  }

  /**
   * The settled grid, column by column: `main` in the centre and, in the
   * other cells, the palette's words in order.
   */
  function Layout(main: TileValue, p: seq<Color>): (r: seq<TileValue>)
    requires |p| == 8
    ensures |r| == 9 && r[MainCell] == main
  {
    seq(9, k requires 0 <= k < 9 => Cell(k, main, p))
  }

  /**
   * Palette entry `i` lands, in black ink and not main, on the `i`-th cell
   * other than the centre, counting column-major.
   */
  lemma LayoutCells(main: TileValue, p: seq<Color>, i: nat)
    requires |p| == 8 && i < 8
    ensures var k := if i < MainCell then i else i + 1;
      k != MainCell && Layout(main, p)[k] == TileValue(Black, p[i], false)
  {
  }

  /** What column-major cell `k` of a settled grid holds. */
  function Cell(k: nat, main: TileValue, p: seq<Color>): (r: TileValue)
    requires k < 9 && |p| == 8
  {
    if k == MainCell then main else NormalTile(p[PaletteSlot(k)])
  }

  /** Number of main tiles among `vs`. */
  function MainCount(vs: seq<TileValue>): nat
  {
    if vs == [] then 0
    else MainCount(vs[..|vs| - 1]) + (if vs[|vs| - 1].isMain then 1 else 0)
  }

  lemma {:induction false} MainCountNone(vs: seq<TileValue>)
    requires forall k :: 0 <= k < |vs| ==> !vs[k].isMain
    ensures MainCount(vs) == 0
  {
    if vs != [] {
      MainCountNone(vs[..|vs| - 1]);
    }
  }

  lemma {:induction false} MainCountSingle(vs: seq<TileValue>, j: nat)
    requires j < |vs|
    requires forall k :: 0 <= k < |vs| ==> (vs[k].isMain <==> k == j)
    ensures MainCount(vs) == 1
  {
    var init := vs[..|vs| - 1];
    if j == |vs| - 1 {
      MainCountNone(init);
    } else {
      MainCountSingle(init, j);
    }
  }

  /** A settled grid has exactly one main tile, the centre one. */
  lemma LayoutHasOneMain(main: TileValue, p: seq<Color>)
    requires |p| == 8 && main.isMain
    ensures forall k :: 0 <= k < 9 ==> (Layout(main, p)[k].isMain <==> k == MainCell)
    ensures MainCount(Layout(main, p)) == 1
  {
    MainCountSingle(Layout(main, p), MainCell);
  }

  /**
   * Which colour the player must report to match: the judgement a touch
   * reporting `selected` gets against a prompt with ink `ink`. `Null`
   * leaves the state alone.
   */
  function CheckOutcome(selected: Color, ink: Color, state: GameState): (r: GameState)
    ensures selected == Null ==> r == state
    ensures selected != Null ==> (r == Ready <==> selected == ink)
    ensures selected != Null ==> (r == GameOver <==> selected != ink)
  {
    if selected != Null then (if selected == ink then Ready else GameOver) else state
  }

  /**
   * A settled grid always has a correct answer: some normal tile shows the
   * word of the prompt's ink, and touching it is judged a match.
   */
  lemma AnswerExists(main: TileValue, p: seq<Color>, state: GameState)
    requires |p| == 8 && main.textColor in Candidates(p)
    ensures exists k :: (0 <= k < 9 && k != MainCell &&
      SelectionOf(Layout(main, p)[k]) == main.textColor &&
      CheckOutcome(SelectionOf(Layout(main, p)[k]), main.textColor, state) == Ready)
  {
    var i :| 0 <= i < 8 && p[i] == main.textColor;
    var k := if i < MainCell then i else i + 1;
    assert PaletteSlot(k) == i;
    assert SelectionOf(Layout(main, p)[k]) == main.textColor;
  }

  /**
   * Touching normal cell `k` of a settled grid: a blank word changes
   * nothing, the prompt's ink matches, any other word ends the game.
   */
  lemma TouchingNormalCell(main: TileValue, p: seq<Color>, k: nat, state: GameState)
    requires |p| == 8 && k < 9 && k != MainCell
    ensures p[PaletteSlot(k)] == Null ==>
      CheckOutcome(SelectionOf(Layout(main, p)[k]), main.textColor, state) == state
    ensures p[PaletteSlot(k)] != Null ==>
      (CheckOutcome(SelectionOf(Layout(main, p)[k]), main.textColor, state) == Ready
       <==> p[PaletteSlot(k)] == main.textColor)
  {
  }

  // ---------------------------------------------------------------------
  // Columns of tiles
  // ---------------------------------------------------------------------

  /** The tiles of `cols`, column after column. */
  function Flatten(cols: seq<seq<ColorTile>>): seq<ColorTile>
  {
    if cols == [] then [] else Flatten(cols[..|cols| - 1]) + cols[|cols| - 1]
  }

  lemma FlattenAppendColumn(cols: seq<seq<ColorTile>>, c: seq<ColorTile>)
    ensures Flatten(cols + [c]) == Flatten(cols) + c
  {
    assert (cols + [c])[..|cols|] == cols;
  }

  lemma {:induction false} FlattenAt(cols: seq<seq<ColorTile>>, x: nat, y: nat)
    requires forall c :: 0 <= c < |cols| ==> |cols[c]| == 3
    requires x < |cols| && y < 3
    ensures |Flatten(cols)| == 3 * |cols|
    ensures Flatten(cols)[3 * x + y] == cols[x][y]
  {
    var init := cols[..|cols| - 1];
    if x == |cols| - 1 {
      if init != [] {
        FlattenAt(init, 0, 0);
      }
    } else {
      FlattenAt(init, x, y);
    }
  }

  /** No tile occurs twice in `ts`. */
  ghost predicate Distinct(ts: seq<ColorTile>)
  {
    forall i, j :: 0 <= i < j < |ts| ==> ts[i] != ts[j]
  }

  lemma DistinctAppend(a: seq<ColorTile>, b: seq<ColorTile>)
    requires Distinct(a) && Distinct(b)
    requires forall i, j :: 0 <= i < |a| && 0 <= j < |b| ==> a[i] != b[j]
    ensures Distinct(a + b)
  {
  }

  lemma CoveredAppend(a: seq<ColorTile>, b: seq<ColorTile>, s: set<ColorTile>)
    requires |b| == 3 && forall k :: 0 <= k < |a| ==> a[k] in s
    ensures forall k :: 0 <= k < |a + b| ==> (a + b)[k] in s + {b[0], b[1], b[2]}
  {
  }

  /** The first `|ts|` cells of the layout of `main` and `p` are what `ts` hold. */
  ghost predicate Holds(ts: seq<ColorTile>, main: TileValue, p: seq<Color>)
    reads set t | t in ts
  {
    |ts| <= 9 && |p| == 8 && forall k :: 0 <= k < |ts| ==> ts[k].Value() == Cell(k, main, p)
  }

  lemma HoldsAppend(a: seq<ColorTile>, b: seq<ColorTile>, main: TileValue, p: seq<Color>)
    requires Holds(a, main, p) && |a| + |b| <= 9
    requires forall j :: 0 <= j < |b| ==> b[j].Value() == Cell(|a| + j, main, p)
    ensures Holds(a + b, main, p)
  {
  }

  /** The values `ts` hold, one per tile. */
  function ValuesOf(ts: seq<ColorTile>): (vs: seq<TileValue>)
    reads set t | t in ts
    ensures |vs| == |ts|
    ensures forall k :: 0 <= k < |ts| ==> vs[k] == ts[k].Value()
  {
    if ts == [] then [] else ValuesOf(ts[..|ts| - 1]) + [ts[|ts| - 1].Value()]
  }

  // ---------------------------------------------------------------------
  // The grid
  // ---------------------------------------------------------------------

  class TileGrid {
    /** The tiles, one sequence per column. */
    var tileArray: seq<seq<ColorTile>>
    /** The prompt tile; set once the centre cell is created. */
    var mainTile: ColorTile?
    /** The palette (a static array in the program, reassigned by the shuffle). */
    var color: seq<Color>
    ghost var Repr: set<object>
    /** The nine tiles in column-major order. */
    ghost var cells: seq<ColorTile>

    /** The structure of the grid, independent of what the tiles hold. */
    ghost predicate Wired()
      reads this`tileArray, this`cells, this`mainTile
    {
      |tileArray| == 3 && (forall x :: 0 <= x < 3 ==> |tileArray[x]| == 3) &&
      cells == Flatten(tileArray) && |cells| == 9 && Distinct(cells) && mainTile == cells[MainCell]
    }

    /** The values of the nine tiles in column-major order. */
    ghost function Values(): seq<TileValue>
      reads this`cells, set t | t in cells
    {
      ValuesOf(cells)
    }

    /**
     * The tiles hold a settled layout: the main tile carries a prompt drawn
     * from the palette, every other tile the black-ink word of its palette
     * slot.
     */
    ghost predicate Settled()
      requires Wired()
      reads this`tileArray, this`cells, this`mainTile, this`color, set t | t in cells
    {
      |color| == 8 &&
      cells[MainCell].isMain &&
      cells[MainCell].textColor in Candidates(color) &&
      cells[MainCell].textValue in Candidates(color) &&
      forall k :: 0 <= k < 9 && k != MainCell ==> cells[k].Value() == NormalTile(color[PaletteSlot(k)])
    }

    /** The grid's invariant: well wired, a palette the game can hold, the tiles settled. */
    ghost predicate Valid()
      reads this, Repr
      ensures Valid() ==> this in Repr
    {
      this in Repr && Wired() &&
      (forall k :: 0 <= k < 9 ==> cells[k] in Repr) &&
      PaletteOk(color) &&
      Settled()
    }

    /** Every valid grid offers a correct answer: a normal tile whose touch is judged a match. */
    lemma HasAnswer(state: GameState)
      requires Valid()
      ensures exists k :: (0 <= k < 9 && k != MainCell &&
        CheckOutcome(SelectionOf(Values()[k]), Values()[MainCell].textColor, state) == Ready)
    {
      SettledLayout();
      AnswerExists(Values()[MainCell], color, state);
    }

    /** A settled grid's values are the layout of its prompt and palette. */
    lemma SettledLayout()
      requires Wired() && Settled()
      ensures Values() == Layout(Values()[MainCell], color)
      ensures Values()[MainCell] == mainTile.Value()
    {
    }

    /**
     * Builds the grid column by column on the palette's current value: the
     * centre is the main tile with a freshly drawn prompt; the other cells
     * take palette entries 0..7 in black ink.
     */
    constructor (palette: seq<Color>, inkDraw: nat, wordDraw: nat)
      requires PaletteOk(palette)
      requires inkDraw < |Candidates(palette)| && wordDraw < |Candidates(palette)|
      ensures Valid() && fresh(Repr)
      ensures color == palette
      ensures Values() == Layout(DrawnPrompt(palette, inkDraw, wordDraw), palette)
    {
      tileArray := [];
      mainTile := null;
      color := palette;
      new;
      ghost var built, tiles := Populate(inkDraw, wordDraw);
      cells := built;
      Repr := {this} + tiles;
      Assemble(built, tiles, DrawnPrompt(palette, inkDraw, wordDraw));
    }

    /** A fully built grid is valid and holds the layout of its prompt. */
    lemma Assemble(built: seq<ColorTile>, tiles: set<ColorTile>, prompt: TileValue)
      requires |tileArray| == 3 && forall x :: 0 <= x < 3 ==> |tileArray[x]| == 3
      requires |built| == 9 && cells == built && Flatten(tileArray) == built
      requires Distinct(built) && mainTile == built[MainCell]
      requires Repr == {this} + tiles && forall k :: 0 <= k < 9 ==> built[k] in tiles
      requires PaletteOk(color) && prompt.isMain
      requires prompt.textColor in Candidates(color) && prompt.textValue in Candidates(color)
      requires Holds(built, prompt, color)
      ensures Valid() && Values() == Layout(prompt, color)
    {
      SettledLayout();
    }

    /**
     * The initialiser's loops: column by column, three fresh tiles each,
     * the centre one installed as `mainTile`.
     */
    method Populate(inkDraw: nat, wordDraw: nat)
      returns (ghost built: seq<ColorTile>, ghost tiles: set<ColorTile>)
      requires tileArray == [] && |color| == 8
      requires inkDraw < |Candidates(color)| && wordDraw < |Candidates(color)|
      modifies this`tileArray, this`mainTile
      ensures |tileArray| == 3 && forall x :: 0 <= x < 3 ==> |tileArray[x]| == 3
      ensures |built| == 9 && Flatten(tileArray) == built && Distinct(built) && mainTile == built[MainCell]
      ensures fresh(tiles) && forall k :: 0 <= k < 9 ==> built[k] in tiles
      ensures Holds(built, DrawnPrompt(color, inkDraw, wordDraw), color)
    {
      ghost var prompt := DrawnPrompt(color, inkDraw, wordDraw);
      built, tiles := [], {};
      var colorCount := 0;
      var gridX := 0;
      while gridX < 3
        invariant 0 <= gridX <= 3
        invariant |tileArray| == gridX && forall x :: 0 <= x < gridX ==> |tileArray[x]| == 3
        invariant Flatten(tileArray) == built
        invariant |built| == 3 * gridX && colorCount == NormalsBefore(3 * gridX)
        invariant fresh(tiles)
        invariant forall k :: 0 <= k < |built| ==> built[k] in tiles
        invariant Distinct(built)
        invariant |built| > MainCell ==> mainTile == built[MainCell]
        invariant Holds(built, prompt, color)
      {
        var column;
        column, colorCount := CreateColumn(gridX, colorCount, inkDraw, wordDraw);
        ghost var made := tiles + {column[0], column[1], column[2]};
        assert fresh(made);
        FlattenAppendColumn(tileArray, column);
        tileArray := tileArray + [column];
        DistinctAppend(built, column);
        HoldsAppend(built, column, prompt, color);
        CoveredAppend(built, column, tiles);
        built, tiles := built + column, made;
        gridX := gridX + 1;
      }
    }

    /**
     * One pass of the initialiser's outer loop: the three tiles of column
     * `gridX`, top to bottom.
     */
    method CreateColumn(gridX: nat, colorCount: nat, inkDraw: nat, wordDraw: nat)
      returns (column: seq<ColorTile>, next: nat)
      requires gridX < 3 && |color| == 8 && colorCount == NormalsBefore(3 * gridX)
      requires inkDraw < |Candidates(color)| && wordDraw < |Candidates(color)|
      modifies this`mainTile
      ensures |column| == 3 && next == NormalsBefore(3 * gridX + 3)
      ensures fresh({column[0], column[1], column[2]})
      ensures Distinct(column)
      ensures gridX == 1 ==> mainTile == column[1]
      ensures gridX != 1 ==> mainTile == old(mainTile)
      ensures forall y :: 0 <= y < 3 ==>
        column[y].Value() == Cell(3 * gridX + y, DrawnPrompt(color, inkDraw, wordDraw), color)
    {
      column := [];
      next := colorCount;
      var gridY := 0;
      while gridY < 3
        invariant 0 <= gridY <= 3 && |column| == gridY
        invariant next == NormalsBefore(3 * gridX + gridY)
        invariant forall y :: 0 <= y < gridY ==> fresh(column[y])
        invariant Distinct(column)
        invariant gridX == 1 && gridY > 1 ==> mainTile == column[1]
        invariant !(gridX == 1 && gridY > 1) ==> mainTile == old(mainTile)
        invariant forall y :: 0 <= y < gridY ==>
          column[y].Value() == Cell(3 * gridX + y, DrawnPrompt(color, inkDraw, wordDraw), color)
      {
        var newTile := CreateTile(gridX, gridY, next, inkDraw, wordDraw);
        if !(gridX == 1 && gridY == 1) {
          next := next + 1;
        }
        column := column + [newTile];
        gridY := gridY + 1;
      }
    }

    /**
     * The body of the initialiser's inner loop for cell (gridX, gridY): at
     * the centre a main tile, installed as `mainTile` and given a drawn
     * prompt; elsewhere palette entry `colorCount` in black ink.
     */
    method CreateTile(gridX: nat, gridY: nat, colorCount: nat, inkDraw: nat, wordDraw: nat)
      returns (newTile: ColorTile)
      requires gridX < 3 && gridY < 3 && |color| == 8
      requires colorCount == NormalsBefore(3 * gridX + gridY)
      requires inkDraw < |Candidates(color)| && wordDraw < |Candidates(color)|
      modifies this`mainTile
      ensures fresh(newTile)
      ensures newTile.Value() == Cell(3 * gridX + gridY, DrawnPrompt(color, inkDraw, wordDraw), color)
      ensures gridX == 1 && gridY == 1 ==> mainTile == newTile
      ensures !(gridX == 1 && gridY == 1) ==> mainTile == old(mainTile)
    {
      if gridX == 1 && gridY == 1 {
        newTile := new ColorTile(Null, Null, true);
        mainTile := newTile;
        ChangeMainTile(inkDraw, wordDraw);
      } else {
        newTile := new ColorTile(Black, color[colorCount]);
      }
    }

    /**
     * Draws a new prompt: collects the palette's non-null entries, then sets
     * the main tile's ink and word from the two draws, keeping it main. No
     * other tile is touched.
     */
    method ChangeMainTile(inkDraw: nat, wordDraw: nat)
      requires mainTile != null
      requires inkDraw < |Candidates(color)| && wordDraw < |Candidates(color)|
      modifies mainTile
      ensures mainTile.Value() == DrawnPrompt(color, inkDraw, wordDraw)
    {
      var mainTileColorArray: seq<Color> := [];
      var i := 0;
      while i < |color|
        invariant 0 <= i <= |color|
        invariant mainTileColorArray == Candidates(color[..i])
      {
        assert color[..i + 1][..i] == color[..i];
        if color[i] != Null {
          mainTileColorArray := mainTileColorArray + [color[i]];
        }
        i := i + 1;
      }
      assert color[..|color|] == color;
      mainTile.SetValue(mainTileColorArray[inkDraw], mainTileColorArray[wordDraw], true);
    }

    /** Judges the shared selection against the prompt's ink and records the outcome. */
    method CheckTouch(statics: Statics)
      requires mainTile != null
      modifies statics`gameState
      ensures statics.gameState ==
        CheckOutcome(statics.selectedColor, mainTile.textColor, old(statics.gameState))
    {
      if statics.selectedColor != Null {
        if statics.selectedColor == mainTile.textColor {
          statics.gameState := Ready;
        } else {
          statics.gameState := GameOver;
        }
      }
    }

    /**
     * Reshuffles the palette and writes it, in column-major order, onto the
     * eight normal tiles in black ink; the main tile is left as it is.
     */
    method RandomizeNormalTiles(d: seq<nat>)
      requires Valid() && ValidOffsets(8, d)
      modifies Repr - {this}, this`color
      ensures Valid()
      ensures color == Shuffled(old(color), d)
      ensures Values() == Layout(old(mainTile.Value()), color)
    {
      ghost var main := mainTile.Value();
      ShuffleKeepsPalette(color, d);
      color := ShuffledCopy(color, d);
      WriteNormalTiles();
      Resettled(main);
    }

    /** Tiles that hold `main` at the centre and the palette elsewhere make a valid grid. */
    lemma Resettled(main: TileValue)
      requires this in Repr && Wired() && forall k :: 0 <= k < 9 ==> cells[k] in Repr
      requires PaletteOk(color)
      requires main.isMain && main.textColor in Candidates(color) && main.textValue in Candidates(color)
      requires cells[MainCell].Value() == main
      requires forall k :: 0 <= k < 9 && k != MainCell ==>
        cells[k].Value() == NormalTile(color[PaletteSlot(k)])
      ensures Valid() && Values() == Layout(main, color)
    {
      SettledLayout();
    }

    /**
     * The loops of the reshuffle: palette entries 0..7, in column-major
     * order, onto every tile but the main one.
     */
    method WriteNormalTiles()
      requires Wired() && |color| == 8 && forall k :: 0 <= k < 9 ==> cells[k] in Repr
      modifies Repr - {this}
      ensures cells[MainCell].Value() == old(cells[MainCell].Value())
      ensures forall k :: 0 <= k < 9 && k != MainCell ==>
        cells[k].Value() == NormalTile(color[PaletteSlot(k)])
    {
      ghost var main := mainTile.Value();
      var colorCount := 0;
      var x := 0;
      while x < 3
        invariant 0 <= x <= 3
        invariant colorCount == NormalsBefore(3 * x)
        invariant cells[MainCell].Value() == main
        invariant forall k :: 0 <= k < 3 * x && k != MainCell ==>
          cells[k].Value() == NormalTile(color[PaletteSlot(k)])
      {
        var y := 0;
        while y < 3
          invariant 0 <= y <= 3
          invariant colorCount == NormalsBefore(3 * x + y)
          invariant cells[MainCell].Value() == main
          invariant forall k :: 0 <= k < 3 * x + y && k != MainCell ==>
            cells[k].Value() == NormalTile(color[PaletteSlot(k)])
        {
          FlattenAt(tileArray, x, y);
          if tileArray[x][y] != mainTile {
            tileArray[x][y].SetValue(Black, color[colorCount]);
            colorCount := colorCount + 1;
          }
          y := y + 1;
        }
        x := x + 1;
      }
    }

    /**
     * The grid's touch handler: when a colour was reported, judge it, draw a
     * new prompt and reshuffle; when none was, do nothing at all.
     */
    method TouchesBegan(statics: Statics, inkDraw: nat, wordDraw: nat, d: seq<nat>)
      requires Valid() && statics !in Repr
      requires inkDraw < |Candidates(color)| && wordDraw < |Candidates(color)|
      requires ValidOffsets(8, d)
      modifies Repr - {this}, this`color, statics`gameState
      ensures Valid()
      ensures statics.selectedColor == Null ==>
        statics.gameState == old(statics.gameState) &&
        color == old(color) && Values() == old(Values())
      ensures statics.selectedColor != Null ==>
        statics.gameState == CheckOutcome(statics.selectedColor,
                                          old(Values()[MainCell].textColor),
                                          old(statics.gameState)) &&
        color == Shuffled(old(color), d) &&
        Values() == Layout(DrawnPrompt(old(color), inkDraw, wordDraw), color)
    {
      if statics.selectedColor != Null {
        CheckTouch(statics);
        ChangeMainTile(inkDraw, wordDraw);
        assert Valid();
        RandomizeNormalTiles(d);
      }
    }
  }
}
