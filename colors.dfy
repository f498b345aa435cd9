/**
 * Colour packing and the theme palette (deps/sxui/sxui.c, "COLOR UTILITIES").
 * A colour is a 32-bit word 0xRRGGBBAA.
 */
module Colors {

  /** The four 8-bit channels of one colour. */
  datatype Rgba = Rgba(r: bv8, g: bv8, b: bv8, a: bv8)

  /** rgba_to_uint: red in bits 24-31, green in 16-23, blue in 8-15, alpha in 0-7. */
  function RgbaToUint(r: bv8, g: bv8, b: bv8, a: bv8): (c: bv32)
    ensures c >> 24 == r as bv32
    ensures (c >> 16) & 0xFF == g as bv32
    ensures (c >> 8) & 0xFF == b as bv32
    ensures c & 0xFF == a as bv32
  {
    (r as bv32 << 24) | (g as bv32 << 16) | (b as bv32 << 8) | a as bv32
  }

  /** uint_to_rgba: splits a packed colour into its channels. */
  function UintToRgba(c: bv32): (ch: Rgba)
    ensures ch.r as bv32 == c >> 24
    ensures ch.g as bv32 == (c >> 16) & 0xFF
    ensures ch.b as bv32 == (c >> 8) & 0xFF
    ensures ch.a as bv32 == c & 0xFF
  {
    Rgba(((c >> 24) & 0xFF) as bv8, ((c >> 16) & 0xFF) as bv8, ((c >> 8) & 0xFF) as bv8, (c & 0xFF) as bv8)
  }

  /** Unpacking a packed colour gives back the channels it was packed from. */
  lemma UnpackPack(r: bv8, g: bv8, b: bv8, a: bv8)
    ensures UintToRgba(RgbaToUint(r, g, b, a)) == Rgba(r, g, b, a)
  {
  }

  /** Packing the channels of a colour gives back the colour. */
  lemma PackUnpack(c: bv32)
    ensures var ch := UintToRgba(c); RgbaToUint(ch.r, ch.g, ch.b, ch.a) == c
  {
  }

  datatype ThemeMode = Dark | Light

  /**
   * The palette derived from a seed colour. The secondary colour, which the
   * source derives with floating-point scaling, is not part of this model.
   */
  datatype Theme = Theme(primary: bv32, background: bv32, surface: bv32, textPrimary: bv32,
                         textSecondary: bv32, border: bv32, seed: bv32, mode: ThemeMode)

  predicate Opaque(c: bv32) {
    UintToRgba(c).a == 0xFF
  }

  /** sx_generate_palette, without the secondary colour. */
  function GeneratePalette(seed: bv32, mode: ThemeMode): (t: Theme)
    ensures t.seed == seed && t.primary == seed && t.mode == mode
    ensures Opaque(t.background) && Opaque(t.surface) && Opaque(t.textPrimary)
    ensures Opaque(t.textSecondary) && Opaque(t.border)
    ensures t.background != t.textPrimary
  {
    if mode == Dark then
      Theme(seed, RgbaToUint(15, 15, 18, 255), RgbaToUint(30, 30, 35, 255),
            0xFFFFFFFF, 0xAAAAAAFF, 0x444444FF, seed, mode)
    else
      Theme(seed, RgbaToUint(240, 240, 245, 255), 0xFFFFFFFF,
            0x1A1A1AFF, 0x666666FF, 0xCCCCCCFF, seed, mode)
  }
}
