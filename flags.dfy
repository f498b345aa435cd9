/** The element flag bits of deps/sxui/sxui.h (UIFlags) and the layout mode they select. */
module Flags {
  import opened Layout

  const NONE: bv32 := 0
  const HIDDEN: bv32 := 1
  const PASSWORD: bv32 := 2
  const DRAGGABLE: bv32 := 4
  const CLIP: bv32 := 8
  const LAYOUT_HORIZONTAL: bv32 := 16
  const LAYOUT_GRID: bv32 := 32
  const SCROLLABLE: bv32 := 64
  const LAYOUT_VERTICAL: bv32 := 128

  predicate Has(flags: bv32, bit: bv32) {
    flags & bit != 0
  }

  /** flags |= bit: the bit is set and every other bit is kept. */
  function Set(flags: bv32, bit: bv32): (r: bv32)
    ensures r & bit == bit
    ensures r & !bit == flags & !bit
  {
    flags | bit
  }

  /** flags &= ~bit: the bit is cleared and every other bit is kept. */
  function Clear(flags: bv32, bit: bv32): (r: bv32)
    ensures r & bit == 0
    ensures r & !bit == flags & !bit
  {
    flags & !bit
  }

  /** The layout a frame uses: grid wins over horizontal; anything else is vertical. */
  function ModeOf(flags: bv32): (m: Mode)
    ensures m == Grid <==> Has(flags, LAYOUT_GRID)
    ensures m == Horizontal <==> !Has(flags, LAYOUT_GRID) && Has(flags, LAYOUT_HORIZONTAL)
  {
    if Has(flags, LAYOUT_GRID) then Grid
    else if Has(flags, LAYOUT_HORIZONTAL) then Horizontal
    else Vertical
  }
}
