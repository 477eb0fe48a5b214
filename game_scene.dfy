/**
 * The game scene: the session's score, health, decay speed and high score,
 * the per-frame health decay with its reset when health runs out, and the
 * tap handler that lets a tile report its word, lets the grid judge it, and
 * then scores the tap or resets the session after a game over.
 */
module GameScenes {
  import opened Colors
  import opened Statics
  import opened ColorTiles
  import opened Shuffle
  import opened TileGrids

  // ---------------------------------------------------------------------
  // The session as a value
  // ---------------------------------------------------------------------

  /** The scene's scalar state together with the shared game state. */
  datatype Session = Session(score: int, health: real, healthIncrement: real, highScore: int, state: GameState)

  /** The decay speed a session starts with. */
  const BaseIncrement: real := 0.005
  /** What the decay speed grows by at each ramp. */
  const RampStep: real := 0.002

  /** The health written after the cap of the `health` observer: the lesser of `h` and 1. */
  function Capped(h: real): (r: real)
    ensures r <= 1.0 && r <= h
    ensures r == h || r == 1.0
  {
    if h > 1.0 then 1.0 else h
  }

  /** A score at which the decay speeds up: a positive multiple of 5 up to 100. */
  predicate Ramps(score: int)
    ensures Ramps(score) ==> score <= 100 && (score > 0 ==> score >= 5)
  {
    score % 5 == 0 && score != 0 && score <= 100
  }

  /** The decay speed that belongs to a score: one ramp per full 5 points, at most 20 ramps. */
  function IncrementFor(score: nat): (r: real)
    ensures BaseIncrement <= r <= BaseIncrement + 20.0 * RampStep
  {
    BaseIncrement + RampStep * ((if score < 100 then score else 100) / 5) as real
  }

  /** Scoring one point moves the decay speed by one ramp exactly when the new score ramps. */
  lemma {:induction false} IncrementStep(score: nat)
    ensures IncrementFor(score + 1) == IncrementFor(score) + (if Ramps(score + 1) then RampStep else 0.0)
  {
    if score + 1 <= 100 {
      var q, m := score / 5, score % 5;
      assert score == 5 * q + m;
      if m == 4 {
        assert score + 1 == 5 * (q + 1);
        assert (score + 1) / 5 == q + 1 && (score + 1) % 5 == 0;
      } else {
        assert score + 1 == 5 * q + (m + 1);
        assert (score + 1) / 5 == q && (score + 1) % 5 != 0;
      }
    }
  }

  /** The invariant of every session the scene holds between events. */
  predicate SessionOk(s: Session)
  {
    s.score >= 0 && 0.0 <= s.health <= 1.0 && s.healthIncrement == IncrementFor(s.score)
  }

  /** The high score after a commit: raised to the score when the score beats it. */
  function Committed(score: int, highScore: int): (r: int)
    ensures r >= highScore && r >= score
    ensures r == highScore || r == score
  {
    if score > highScore then score else highScore
  }

  /** The session after a reset: score, decay speed and health back to their start, state ready. */
  function Restarted(s: Session): (r: Session)
    ensures SessionOk(r) && r.state == Ready
    ensures r.highScore >= s.highScore
  {
    Session(0, Capped(1.0), BaseIncrement, Committed(s.score, s.highScore), Ready)
  }

  /** The session after a scored tap: one more point, full health, a ramp when due. */
  function Scored(s: Session): (r: Session)
    ensures r.score == s.score + 1 && r.highScore == s.highScore
  {
    Session(s.score + 1, Capped(1.0), s.healthIncrement + (if Ramps(s.score + 1) then RampStep else 0.0),
            s.highScore, s.state)
  }

  /** A scored tap keeps the invariant, adds exactly one point and refills health. */
  lemma ScoredOk(s: Session)
    requires SessionOk(s)
    ensures SessionOk(Scored(s))
    ensures Scored(s).score == s.score + 1 && Scored(s).health == 1.0
    ensures Scored(s).highScore == s.highScore && Scored(s).state == s.state
  {
    IncrementStep(s.score);
  }

  /**
   * The scene's reaction to a tap, once the nodes under it have run:
   * `s.state` is the state they left, `hitTile` whether a tile was among
   * them, `selected` the colour the tile reported.
   */
  function Tapped(s: Session, hitTile: bool, selected: Color): (r: Session)
    ensures r.state != GameOver
    ensures r.highScore >= s.highScore
  {
    if s.state != GameOver && hitTile then
      (if selected != Null then Scored(s) else s)
    else if s.state == GameOver then
      Restarted(s)
    else
      s
  }

  /** The scene's reaction keeps the session invariant. */
  lemma TappedOk(s: Session, hitTile: bool, selected: Color)
    requires SessionOk(s)
    ensures SessionOk(Tapped(s, hitTile, selected))
  {
    ScoredOk(s);
  }

  /** What a tap resolves to: no node, or the tile at a cell (column-major) and the grid behind it. */
  datatype Hit = Miss | Tile(cell: nat)

  /**
   * A whole tap on a grid showing `vals`: a tile reports its selection, the
   * grid judges it against the prompt's ink, then the scene reacts.
   */
  function TapSession(s: Session, hit: Hit, vals: seq<TileValue>): (r: Session)
    requires |vals| == 9 && (hit.Tile? ==> hit.cell < 9)
    ensures r.state != GameOver
    ensures r.highScore >= s.highScore
  {
    match hit
    case Miss => Tapped(s, false, Null)
    case Tile(k) =>
      var selected := SelectionOf(vals[k]);
      Tapped(s.(state := CheckOutcome(selected, vals[MainCell].textColor, s.state)), true, selected)
  }

  /**
   * On a settled grid in the ready state: the word matching the prompt's ink
   * scores one point with full health, any other word commits the high score
   * and resets, the prompt itself and a miss change nothing.
   */
  lemma TapOutcomes(s: Session, main: TileValue, p: seq<Color>, k: nat)
    requires SessionOk(s) && s.state == Ready
    requires |p| == 8 && main.isMain && main.textColor != Null && k < 9
    ensures var vals := Layout(main, p);
      var word := vals[k].textValue;
      (k != MainCell && word != Null && word == main.textColor ==> TapSession(s, Tile(k), vals) == Scored(s)) &&
      (k != MainCell && word != Null && word != main.textColor ==> TapSession(s, Tile(k), vals) == Restarted(s)) &&
      (k == MainCell || word == Null ==> TapSession(s, Tile(k), vals) == s) &&
      TapSession(s, Miss, vals) == s
  {
  }

  /**
   * Once ready, always ready: a tap never leaves the ready state (a wrong
   * answer's game over is reset within the same tap) and an update in the
   * ready state changes nothing, so health never decays in a reachable
   * session.
   */
  lemma ReadyIsStable(s: Session, hit: Hit, vals: seq<TileValue>)
    requires |vals| == 9 && (hit.Tile? ==> hit.cell < 9) && s.state == Ready
    ensures TapSession(s, hit, vals).state == Ready
    ensures Updated(s) == s
  {
  }

  /**
   * One frame's decay of health `h` at speed `inc`, by band: above 0.15 the
   * full speed, below 0.05 a fixed 0.005, below 0.10 half the speed, and
   * three quarters of it in between.
   */
  function Decayed(h: real, inc: real): (r: real)
    ensures inc >= BaseIncrement ==> h - inc <= r < h
    ensures h > 0.15 ==> r == h - inc
  {
    if h > 0.15 then h - inc
    else if h < 0.05 then h - 0.005
    else if h < 0.10 then h - inc / 2.0
    else h - inc * 0.75
  }

  /** The session after one frame: untouched when ready, else decayed, and reset once health is below 0. */
  function Updated(s: Session): (r: Session)
    ensures s.state == Ready ==> r == s
    ensures r.highScore >= s.highScore
    ensures s.state != GameOver ==> r.state != GameOver
  {
    if s.state == Ready then s
    else
      var h := Capped(Decayed(s.health, s.healthIncrement));
      if h < 0.0 then Restarted(s) else s.(health := h)
  }

  /**
   * A frame keeps the invariant; outside the ready state it either resets
   * (exactly when the decayed health is below 0) or strictly lowers health
   * by at most the current speed.
   */
  lemma UpdatedOk(s: Session)
    requires SessionOk(s)
    ensures SessionOk(Updated(s))
    ensures s.state != Ready && Decayed(s.health, s.healthIncrement) < 0.0 ==> Updated(s) == Restarted(s)
    ensures s.state != Ready && Decayed(s.health, s.healthIncrement) >= 0.0 ==>
      Updated(s).score == s.score && s.health - s.healthIncrement <= Updated(s).health < s.health
  {
    var d := Decayed(s.health, s.healthIncrement);
    assert d < s.health && Capped(d) == d;
  }

  // ---------------------------------------------------------------------
  // The scene
  // ---------------------------------------------------------------------

  class GameScene {
    var tileGrid: TileGrid
    /** The shared statics: the reported colour and the game state. */
    var statics: Statics
    var score: int
    var health: real
    var healthIncrement: real
    /** The persisted high score, held here as a plain value. */
    var highScore: int

    /** The session as a value. */
    ghost function Snapshot(): Session
      reads this`score, this`health, this`healthIncrement, this`highScore, this`statics, statics`gameState
    {
      Session(score, health, healthIncrement, highScore, statics.gameState)
    }

    /** A valid grid that owns neither the scene nor the statics. */
    ghost predicate GridOk()
      reads this`tileGrid, this`statics, tileGrid, tileGrid.Repr
    {
      tileGrid.Valid() && statics !in tileGrid.Repr && this !in tileGrid.Repr
    }

    /** The scene's invariant: its grid is valid and its session keeps the session invariant. */
    ghost predicate Valid()
      reads this, statics, tileGrid, tileGrid.Repr
    {
      GridOk() && SessionOk(Snapshot())
    }

    /**
     * The scene as it appears: a fresh session at full health and base
     * speed, the stored high score, and a grid built on the palette's
     * current value (the seed palette when the game starts).
     */
    constructor (statics: Statics, storedHighScore: int, palette: seq<Color>, inkDraw: nat, wordDraw: nat)
      requires PaletteOk(palette)
      requires inkDraw < |Candidates(palette)| && wordDraw < |Candidates(palette)|
      ensures Valid() && fresh(tileGrid.Repr) && this.statics == statics
      ensures Snapshot() == Session(0, 1.0, BaseIncrement, storedHighScore, statics.gameState)
      ensures tileGrid.color == palette
      ensures tileGrid.Values() == Layout(DrawnPrompt(palette, inkDraw, wordDraw), palette)
    {
      tileGrid := new TileGrid(palette, inkDraw, wordDraw);
      this.statics := statics;
      score := 0;
      health := 1.0;
      healthIncrement := BaseIncrement;
      highScore := storedHighScore;
    }

    /** Writes health through the cap. */
    method SetHealth(h: real)
      modifies this`health
      ensures health == Capped(h)
    {
      health := h;
      if health > 1.0 {
        health := 1.0;
      }
    }

    /** Records the current score as the high score. */
    method SaveHighScore()
      modifies this`highScore
      ensures highScore == score
    {
      highScore := score;
    }

    /** One frame: decay health by band, and reset the session once it has run out. */
    method Update()
      requires SessionOk(Snapshot())
      modifies this`score, this`health, this`healthIncrement, this`highScore, statics`gameState
      ensures SessionOk(Snapshot())
      ensures Snapshot() == Updated(old(Snapshot()))
    {
      UpdatedOk(Snapshot());
      if statics.gameState == Ready {
        return;
      }
      if health > 0.15 {
        SetHealth(health - healthIncrement);
      } else if health < 0.05 {
        SetHealth(health - 0.005);
      } else if health < 0.10 {
        SetHealth(health - healthIncrement / 2.0);
      } else {
        SetHealth(health - healthIncrement * 0.75);
      }
      if health < 0.0 {
        statics.gameState := GameOver;
        if score > highScore {
          SaveHighScore();
        }
        score := 0;
        statics.gameState := Ready;
        healthIncrement := BaseIncrement;
        SetHealth(1.0);
        return;
      }
    }

    /**
     * A tap: the tile under it (if any) reports its word, the grid judges the
     * report, redraws the prompt and reshuffles, and then the scene scores
     * the tap or, after a game over, commits the high score and resets. What
     * the grid does with the tap is stated by `DispatchTap`.
     */
    method TouchesBegan(hit: Hit, inkDraw: nat, wordDraw: nat, d: seq<nat>)
      requires Valid()
      requires hit.Tile? ==> hit.cell < 9
      requires inkDraw < |Candidates(tileGrid.color)| && wordDraw < |Candidates(tileGrid.color)|
      requires ValidOffsets(8, d)
      modifies this`score, this`health, this`healthIncrement, this`highScore, statics
      modifies tileGrid.Repr - {tileGrid}, tileGrid`color
      ensures Valid()
      ensures Snapshot() == TapSession(old(Snapshot()), hit, old(tileGrid.Values()))
      ensures hit.Miss? ==> statics.selectedColor == old(statics.selectedColor)
      ensures hit.Tile? ==> statics.selectedColor == SelectionOf(old(tileGrid.Values())[hit.cell])
    {
      var hitTile := DispatchTap(hit, inkDraw, wordDraw, d);
      ScoreOrReset(hitTile);
    }

    /**
     * The nodes under a tap handle it, tile first: the tile reports its
     * selection, then the grid judges it. Answers whether a tile was hit.
     */
    method DispatchTap(hit: Hit, inkDraw: nat, wordDraw: nat, d: seq<nat>) returns (hitTile: bool)
      requires GridOk()
      requires hit.Tile? ==> hit.cell < 9
      requires inkDraw < |Candidates(tileGrid.color)| && wordDraw < |Candidates(tileGrid.color)|
      requires ValidOffsets(8, d)
      modifies statics, tileGrid.Repr - {tileGrid}, tileGrid`color
      ensures GridOk()
      ensures hitTile == hit.Tile?
      ensures hit.Miss? ==>
        statics.selectedColor == old(statics.selectedColor) && statics.gameState == old(statics.gameState) &&
        tileGrid.color == old(tileGrid.color) && tileGrid.Values() == old(tileGrid.Values())
      ensures hit.Tile? ==>
        statics.selectedColor == SelectionOf(old(tileGrid.Values())[hit.cell]) &&
        statics.gameState == CheckOutcome(statics.selectedColor, old(tileGrid.Values())[MainCell].textColor,
                                          old(statics.gameState))
      ensures hit.Tile? && statics.selectedColor == Null ==>
        tileGrid.color == old(tileGrid.color) && tileGrid.Values() == old(tileGrid.Values())
      ensures hit.Tile? && statics.selectedColor != Null ==>
        tileGrid.color == Shuffled(old(tileGrid.color), d) &&
        tileGrid.Values() == Layout(DrawnPrompt(old(tileGrid.color), inkDraw, wordDraw), tileGrid.color)
    {
      hitTile := false;
      if hit.Tile? {
        ReportTile(hit.cell);
        tileGrid.TouchesBegan(statics, inkDraw, wordDraw, d);
        hitTile := true;
      }
    }

    /** The tile at `cell` (column-major) handles the tap: it reports its selection. */
    method ReportTile(cell: nat)
      requires GridOk() && cell < 9
      modifies statics`selectedColor
      ensures GridOk() && tileGrid.Values() == old(tileGrid.Values())
      ensures statics.selectedColor == SelectionOf(tileGrid.Values()[cell])
    {
      var x, y := cell / 3, cell % 3;
      FlattenAt(tileGrid.tileArray, x, y);
      var tile := tileGrid.tileArray[x][y];
      assert tile.Value() == tileGrid.Values()[cell];
      tile.TouchesBegan(statics);
    }

    /**
     * The scene's own reaction to a tap: a reported colour outside a game
     * over scores a point, refills health and ramps the decay when due; a
     * game over commits the high score and resets the session.
     */
    method ScoreOrReset(hitTile: bool)
      requires SessionOk(Snapshot())
      modifies this`score, this`health, this`healthIncrement, this`highScore, statics`gameState
      ensures SessionOk(Snapshot())
      ensures Snapshot() == Tapped(old(Snapshot()), hitTile, statics.selectedColor)
    {
      TappedOk(Snapshot(), hitTile, statics.selectedColor);
      ScoredOk(Snapshot());
      if statics.gameState != GameOver && hitTile {
        if statics.selectedColor != Null {
          score := score + 1;
          SetHealth(1.0);
          if score % 5 == 0 && score != 0 && score <= 100 {
            healthIncrement := healthIncrement + 0.002;
          }
        }
      } else if statics.gameState == GameOver {
        if score > highScore {
          SaveHighScore();
        }
        score := 0;
        statics.gameState := Ready;
        healthIncrement := BaseIncrement;
        SetHealth(1.0);
      }
    }
  }
}
