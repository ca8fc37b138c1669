/** `Color` (src/math/color.rs): three 8-bit channels.  The channels are `u8`,
    so every one of them lies in 0..=255 by its type. */
module Colors {
  import opened Platform

  /** `Color::new(r, g, b)` is this constructor. */
  datatype Color = Color(r: u8, g: u8, b: u8)

  /** `data()`: the channels as a three-byte array. */
  function Data(c: Color): (d: seq<u8>)
    ensures |d| == 3 && Color(d[0], d[1], d[2]) == c
  {
    [c.r, c.g, c.b]
  }

  /** The bytes come back exactly as they were given to `Color::new`, in `[r, g, b]` order. */
  lemma DataOfNew(r: u8, g: u8, b: u8)
    ensures Data(Color(r, g, b)) == [r, g, b]
  {
  }

  /** `data()` loses nothing: two colours with the same bytes are the same colour. */
  lemma DataInjective(c: Color, d: Color)
    ensures Data(c) == Data(d) ==> c == d
  {
    if Data(c) == Data(d) {
      assert Data(c)[0] == Data(d)[0] && Data(c)[1] == Data(d)[1] && Data(c)[2] == Data(d)[2];
    }
  }
}
