/** The laid-out form of a chat message: lines of positioned drawables, plus
    the fixed spacing constants of the video renderer and the animated-emote
    frame selector. */
module Drawables {
  import opened Text
  import opened Colors

  /** Spacing constants of the renderer, in pixels, and its frame rate. */
  const EmotePad: real := 3.0
  const BadgePad: real := 3.0
  const HorizontalPad: real := 5.0
  const VerticalPad: real := 5.0
  const FPS: nat := 24

  /** A decoded image: its pixel size and the number of frames along its
      first frame dimension (1 for a still image). `key` identifies it. */
  datatype Image = Image(key: Str, width: nat, height: nat, frameCount: nat)

  datatype FontStyle = Regular | Bold

  datatype RawSize = RawSize(width: real, height: real)

  /** What text measurement returns: never negative. */
  type Size = s: RawSize | 0.0 <= s.width && 0.0 <= s.height witness RawSize(0.0, 0.0)

  /** A measured extent: never negative. */
  type Length = x: real | 0.0 <= x

  /** One positioned run. Offsets are relative to the owning line. */
  datatype Drawable =
    | Badge(offsetX: real, offsetY: real, image: Image)
    | User(offsetX: real, offsetY: real, height: Length, name: Str, color: Color)
    | Text(offsetX: real, offsetY: real, height: Length, message: Str, color: Color)
    | Emote(offsetX: real, offsetY: real, image: Image)
  {
    function Height(): (h: real)
      ensures h >= 0.0
    {
      match this
      case Badge(_, _, img) => img.height as real
      case User(_, _, h, _, _) => h
      case Text(_, _, h, _, _) => h
      case Emote(_, _, img) => img.height as real
    }
  }

  datatype Line = Line(offsetX: real, offsetY: real, drawables: seq<Drawable>)

  datatype DrawableMessage = DrawableMessage(lines: seq<Line>, startFrame: nat, live: bool)

  /** `Drawables.Max(x => x.Height)`, defined only for a non-empty line. */
  function MaxHeight(ds: seq<Drawable>): (h: real)
    requires |ds| > 0
    ensures forall i :: 0 <= i < |ds| ==> ds[i].Height() <= h
  {
    if |ds| == 1 then ds[0].Height()
    else
      var m := MaxHeight(ds[..|ds| - 1]);
      var last := ds[|ds| - 1].Height();
      assert forall i :: 0 <= i < |ds| - 1 ==> ds[i] == ds[..|ds| - 1][i];
      if last <= m then m else last
  }

  /** The maximum is the height of one of the drawables. */
  lemma {:induction false} MaxHeightAttained(ds: seq<Drawable>)
    requires |ds| > 0
    ensures exists i :: 0 <= i < |ds| && ds[i].Height() == MaxHeight(ds)
  {
    if |ds| > 1 {
      var init := ds[..|ds| - 1];
      MaxHeightAttained(init);
      var i :| 0 <= i < |init| && init[i].Height() == MaxHeight(init);
      assert ds[i] == init[i];
      if ds[|ds| - 1].Height() <= MaxHeight(init) {
        assert ds[i].Height() == MaxHeight(ds);
      } else {
        assert ds[|ds| - 1].Height() == MaxHeight(ds);
      }
    } else {
      assert ds[0].Height() == MaxHeight(ds);
    }
  }

  function LineHeight(l: Line): real
    requires |l.drawables| > 0
  {
    MaxHeight(l.drawables)
  }

  /** How far a line is pushed down so that no image centred on it reaches
      above its band: the largest amount by which a drawable sits above the
      line origin, or 0. */
  function ShiftOf(ds: seq<Drawable>): (s: real)
    ensures s >= 0.0
    ensures forall i :: 0 <= i < |ds| ==> -ds[i].offsetY <= s
    ensures s == 0.0 || exists i :: 0 <= i < |ds| && s == -ds[i].offsetY
  {
    if ds == [] then 0.0
    else
      var m := ShiftOf(ds[..|ds| - 1]);
      var up := -ds[|ds| - 1].offsetY;
      assert forall i :: 0 <= i < |ds| - 1 ==> ds[i] == ds[..|ds| - 1][i];
      if up <= m then m else up
  }

  /** A message the compositor can draw: at least one line, every line non-empty. */
  predicate WellFormed(m: DrawableMessage)
  {
    |m.lines| > 0 && forall k :: 0 <= k < |m.lines| ==> |m.lines[k].drawables| > 0
  }

  /** `Emote.SetFrame`: the active frame of the emote image after the call.
      Only an animated image (more than one frame) changes frame. */
  function SetFrame(img: Image, active: nat, f: nat): (r: nat)
    ensures img.frameCount > 1 ==> r < img.frameCount
    ensures img.frameCount <= 1 ==> r == active
  {
    if img.frameCount > 1 then f % img.frameCount else active
  }

  /** Animated emotes cycle: the first output frame shows the first
      sub-frame, one output frame later shows the next sub-frame, and a whole
      cycle later shows the same one. */
  lemma SetFrameCycles(img: Image, active: nat, f: nat)
    requires img.frameCount > 1
    ensures SetFrame(img, active, 0) == 0
    ensures SetFrame(img, active, f + img.frameCount) == SetFrame(img, active, f)
    ensures SetFrame(img, active, f + 1) == (SetFrame(img, active, f) + 1) % img.frameCount
  {
    var n := img.frameCount;
    var q, r := f / n, f % n;
    assert f == q * n + r;
    assert f + n == (q + 1) * n + r;
    ModOfDecomposition(f + n, n, q + 1, r);
    if r + 1 < n {
      ModOfDecomposition(f + 1, n, q, r + 1);
      ModOfDecomposition(r + 1, n, 0, r + 1);
    } else {
      assert f + 1 == (q + 1) * n + 0;
      ModOfDecomposition(f + 1, n, q + 1, 0);
      ModOfDecomposition(r + 1, n, 1, 0);
    }
  }

  lemma {:induction false} MulAtLeast(d: int, n: int)
    requires d >= 1 && n >= 0
    ensures d * n >= n
  {
    if d > 1 {
      MulAtLeast(d - 1, n);
      assert d * n == (d - 1) * n + n;
    }
  }

  /** Euclidean division is unique: a decomposition a == q * n + r with
      0 <= r < n fixes the remainder. */
  lemma ModOfDecomposition(a: int, n: int, q: int, r: int)
    requires 0 <= r < n && a == q * n + r
    ensures a % n == r
  {
    var q', r' := a / n, a % n;
    assert a == q' * n + r';
    assert q * n - q' * n == r' - r;
    assert (q - q') * n == q * n - q' * n;
    if q > q' {
      MulAtLeast(q - q', n);
    } else if q < q' {
      assert (q' - q) * n == q' * n - q * n;
      MulAtLeast(q' - q, n);
    }
  }
}
