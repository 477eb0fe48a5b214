/**
 * The process-wide mutable state the game's classes share: the colour the
 * last touched tile reported and the current game state. Both are static
 * variables in the program; here they are fields of one object that every
 * component holding it reads and writes.
 */
module Statics {
  import opened Colors

  /** The game states; only `Ready` and `GameOver` are ever assigned. */
  datatype GameState = Title | Ready | Playing | GameOver

  class Statics {
    /** The colour reported by the last tile touched (`ColorTile.selectedColor`). */
    var selectedColor: Color
    /** The scene's state (`GameScene.gameState`). */
    var gameState: GameState

    /** Both statics start at their declared initial values. */
    constructor ()
      ensures selectedColor == Null && gameState == Ready
    {
      selectedColor := Null;
      gameState := Ready;
    }
  }
}
