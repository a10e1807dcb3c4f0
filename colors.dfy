/**
 * The RGBA colour record of src/SDLColor.cs and its conversion to the
 * native colour struct.
 */
module Colors {

  /** An unsigned 8-bit channel value, as the C# `byte` properties hold. */
  newtype byte = x: int | 0 <= x < 256

  /** The managed colour (properties R, G, B, A). */
  datatype SDLColor = SDLColor(R: byte, G: byte, B: byte, A: byte)

  /** The native struct the text renderer receives (fields r, g, b, a). */
  datatype NativeColor = NativeColor(r: byte, g: byte, b: byte, a: byte)

  /** The alpha an opaque colour gets. */
  const Opaque: byte := 255

  /** The three-argument constructor: an opaque colour. */
  function OpaqueColor(r: byte, g: byte, b: byte): (c: SDLColor)
    ensures c.R == r && c.G == g && c.B == b
    ensures c.A == Opaque
  {
    SDLColor(r, g, b, Opaque)
  }

  /** The four-argument constructor: every channel as given. */
  function ColorWithAlpha(r: byte, g: byte, b: byte, a: byte): (c: SDLColor)
    ensures c.R == r && c.G == g && c.B == b && c.A == a
  {
    SDLColor(r, g, b, a)
  }

  /** The value every read of `SDLColor.BLACK` produces. */
  function Black(): (c: SDLColor)
    ensures c == SDLColor(0, 0, 0, 255)
  {
    OpaqueColor(0, 0, 0)
  }

  /** Copies each channel into the native struct unchanged. */
  function ToNativeColor(c: SDLColor): (n: NativeColor)
    ensures n.r == c.R && n.g == c.G && n.b == c.B && n.a == c.A
  {
    NativeColor(c.R, c.G, c.B, c.A)
  }

  /** The reverse copy, used only to state that the conversion loses nothing. */
  function FromNativeColor(n: NativeColor): SDLColor
  {
    SDLColor(n.r, n.g, n.b, n.a)
  }

  /** Converting to the native struct and back gives the same colour. */
  lemma NativeRoundTrip(c: SDLColor)
    ensures FromNativeColor(ToNativeColor(c)) == c
  {
  }

  /** Distinct colours reach the renderer as distinct native colours. */
  lemma ToNativeColorInjective(c: SDLColor, d: SDLColor)
    requires ToNativeColor(c) == ToNativeColor(d)
    ensures c == d
  {
    NativeRoundTrip(c);
    NativeRoundTrip(d);
  }

  /** The two constructors agree when the alpha given is 255. */
  lemma OpaqueIsFullAlpha(r: byte, g: byte, b: byte)
    ensures OpaqueColor(r, g, b) == ColorWithAlpha(r, g, b, 255)
  {
  }
}
