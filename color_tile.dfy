/**
 * One cell of the grid: the ink colour its word is drawn in, the colour
 * word it shows, whether it is the prompt ("main") tile, and the text of
 * its label.
 */
module ColorTiles {
  import opened Colors
  import opened Statics

  /** The value a tile holds: ink (`textColor`), word (`textValue`) and main flag. */
  datatype TileValue = TileValue(textColor: Color, textValue: Color, isMain: bool)

  /**
   * The colour a touch on a tile holding `v` reports: the word of a normal
   * tile, never its ink, and `Null` for the main tile.
   */
  function SelectionOf(v: TileValue): (r: Color)
    ensures r != Null ==> !v.isMain && r == v.textValue
    ensures !v.isMain ==> r == v.textValue
    ensures v.isMain ==> r == Null
  {
    if !v.isMain then v.textValue else Null
  }

  class ColorTile {
    var textColor: Color
    var textValue: Color
    var isMain: bool
    /** The text of the tile's label node. */
    var labelText: string

    function Value(): TileValue
      reads this
    {
      TileValue(textColor, textValue, isMain)
    }

    /** A new tile holds exactly the given values (the initialiser delegates to `SetValue`). */
    constructor (textColor: Color, textValue: Color, isMain: bool := false)
      ensures Value() == TileValue(textColor, textValue, isMain)
      ensures labelText == RawValue(textValue)
    {
      this.textValue := textValue;
      this.textColor := textColor;
      this.isMain := isMain;
      this.labelText := RawValue(textValue);
    }

    /** Stores the three values and shows the word's raw value on the label. */
    method SetValue(textColor: Color, textValue: Color, isMain: bool := false)
      modifies this
      ensures Value() == TileValue(textColor, textValue, isMain)
      ensures labelText == RawValue(textValue)
    {
      this.textValue := textValue;
      this.textColor := textColor;
      this.isMain := isMain;
      this.labelText := RawValue(textValue);
    }

    /**
     * A touch on this tile writes the shared selection and nothing else: a
     * normal tile reports its word, the main tile reports `Null`.
     */
    method TouchesBegan(statics: Statics)
      modifies statics`selectedColor
      ensures statics.selectedColor == SelectionOf(Value())
      ensures !isMain ==> statics.selectedColor == textValue
      ensures isMain ==> statics.selectedColor == Null
    {
      if !isMain {
        statics.selectedColor := textValue;
      } else {
        statics.selectedColor := Null;
      }
    }
  }
}
