/**
 * How the image meter's two integer options select its draw mode.
 */
module DrawModes {

  /** The four ways the meter can lay its bitmap into its rectangle. */
  datatype DrawMode = None | Tile | KeepRatio | KeepRatioAndCrop

  /** The draw mode chosen from the `Tile` and `PreserveAspectRatio` options.
      A non-zero `Tile` wins over any aspect setting; among the aspect codes
      only 0 and 2 are special, and every other code (1 included) preserves
      the ratio without cropping. Each clause gives the exact set of option
      pairs that yield one mode. */
  function ModeOf(tile: int, preserveAspectRatio: int): (mode: DrawMode)
    ensures mode == Tile <==> tile != 0
    ensures mode == None <==> tile == 0 && preserveAspectRatio == 0
    ensures mode == KeepRatioAndCrop <==> tile == 0 && preserveAspectRatio == 2
    ensures mode == KeepRatio <==> tile == 0 && preserveAspectRatio != 0 && preserveAspectRatio != 2
  {
    if tile != 0 then Tile
    else if preserveAspectRatio == 0 then None
    else if preserveAspectRatio == 2 then KeepRatioAndCrop
    else KeepRatio
  }
}
