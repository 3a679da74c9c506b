/** ARGB colours and the author-name contrast fix applied before drawing a user tag. */
module Colors {

  type Byte = x: int | 0 <= x < 256

  datatype Color = Color(a: Byte, r: Byte, g: Byte, b: Byte)

  /** `(byte) (x - y)`: the difference of two channels, wrapped into a byte. */
  function WrappedDiff(x: Byte, y: Byte): Byte
  {
    (x - y) % 256
  }

  /** A channel counts as "close" to the background's when it lies less than
      half the byte range above it, going round the wrap. */
  predicate Close(x: Byte, y: Byte)
  {
    WrappedDiff(x, y) < 128
  }

  /** The half-range shift used on a close colour: add 128 and reduce modulo 255. */
  function Shift(x: Byte): (r: Byte)
    ensures r <= 254 && r != x
  {
    (x + 128) % 255
  }

  /** `Color.Contrast`: an author colour close to the background in all three
      channels is shifted by half the range in each (and becomes opaque);
      any other colour is returned as it is. */
  function Contrast(value: Color, other: Color): (c: Color)
    ensures c == value || c == Color(255, Shift(value.r), Shift(value.g), Shift(value.b))
    ensures c != value ==> c.r <= 254 && c.g <= 254 && c.b <= 254
    ensures c != value <==> Close(value.r, other.r) && Close(value.g, other.g) && Close(value.b, other.b)
  {
    if Close(value.r, other.r) && Close(value.g, other.g) && Close(value.b, other.b) then
      Color(255, Shift(value.r), Shift(value.g), Shift(value.b))
    else
      value
  }

  /** The wrapped difference is exactly how far `y` must be advanced round the
      byte circle to reach `x`. */
  lemma WrappedDiffIsDistance(x: Byte, y: Byte, k: int)
    requires 0 <= k < 256 && (y + k) % 256 == x
    ensures k == WrappedDiff(x, y)
  {
  }

  /** The shift is a permutation of bytes 0..254 onto itself plus 255 -> 128,
      computed here channel by channel. */
  lemma ShiftValues(x: Byte)
    ensures x <= 126 ==> Shift(x) == x + 128
    ensures 127 <= x <= 254 ==> Shift(x) == x - 127
    ensures x == 255 ==> Shift(x) == 128
  {
  }

  /** A colour equal to the background is always adjusted, and the adjusted
      colour is no longer close to the background in any channel. */
  lemma SameAsBackgroundIsMovedAway(c: Color)
    ensures Contrast(c, c) == Color(255, Shift(c.r), Shift(c.g), Shift(c.b))
    ensures !Close(Shift(c.r), c.r) && !Close(Shift(c.g), c.g) && !Close(Shift(c.b), c.b)
  {
    assert WrappedDiff(c.r, c.r) == 0;
    assert WrappedDiff(c.g, c.g) == 0;
    assert WrappedDiff(c.b, c.b) == 0;
  }

  /** Because the shift reduces modulo 255 rather than 256, a mid grey on a
      black background is mapped onto the background colour itself. */
  lemma GreyOnBlackBecomesBlack()
    ensures Contrast(Color(255, 127, 127, 127), Color(255, 0, 0, 0)) == Color(255, 0, 0, 0)
  {
    assert Close(127, 0);
  }
}
