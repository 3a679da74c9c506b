/** What `MakeDrawableMessage` guarantees about the lines it builds, proved
    through an invariant of the word loop. */
module LayoutFacts {
  import opened Wrappers
  import opened Text
  import opened Colors
  import opened Drawables
  import opened Bits
  import opened Layout

  // ---------------------------------------------------------------------------
  // Horizontal geometry
  // ---------------------------------------------------------------------------

  /** How far the pen moves past a drawable's left edge. */
  function Advance(r: Renderer, d: Drawable): real
  {
    match d
    case Badge(_, _, img) => img.width as real + BadgePad
    case User(_, _, _, name, _) => r.measure(name, Bold).width
    case Text(_, _, _, m, _) => r.measure(m, Regular).width
    case Emote(_, _, img) => img.width as real
  }

  /** The gap left before a drawable: emotes are preceded by the emote pad. */
  function Lead(d: Drawable): real
  {
    if d.Emote? then EmotePad else 0.0
  }

  /** Where the pen stands after the drawables of the current line. */
  function PenAfter(r: Renderer, ds: seq<Drawable>): real
  {
    if ds == [] then HorizontalPad else ds[|ds| - 1].offsetX + Advance(r, ds[|ds| - 1])
  }

  /** Drawables placed left to right with no overlap and no gap beyond the
      emote pad: each one at the pen left by those before it (the first one
      at the horizontal pad), after its lead. */
  ghost predicate Packed(r: Renderer, ds: seq<Drawable>)
    decreases |ds|
  {
    ds == [] ||
    (var init := ds[..|ds| - 1];
     Packed(r, init) && ds[|ds| - 1].offsetX == PenAfter(r, init) + Lead(ds[|ds| - 1]))
  }

  /** A drawable that is not first on its line ends inside the width: an
      emote within the width once its pad is discounted, non-empty text
      strictly inside it. */
  ghost predicate FitsAt(r: Renderer, d: Drawable)
  {
    match d
    case Emote(x, _, img) => x - EmotePad + img.width as real + HorizontalPad <= r.width as real
    case Text(x, _, _, m, _) => |m| > 0 ==> x + r.measure(m, Regular).width + HorizontalPad < r.width as real
    case _ => true
  }

  /** Every drawable but the first fits. */
  ghost predicate Fits(r: Renderer, ds: seq<Drawable>)
    decreases |ds|
  {
    |ds| <= 1 || (Fits(r, ds[..|ds| - 1]) && FitsAt(r, ds[|ds| - 1]))
  }

  ghost predicate GoodLine(r: Renderer, l: Line)
  {
    |l.drawables| > 0 && l.offsetX == HorizontalPad && Packed(r, l.drawables) && Fits(r, l.drawables)
  }

  // ---------------------------------------------------------------------------
  // Vertical geometry
  // ---------------------------------------------------------------------------

  /** The bottom of a line's band: the band is pushed down by the shift above
      the line and extends by the same shift below it. */
  function Bottom(l: Line): real
    requires |l.drawables| > 0
  {
    l.offsetY + LineHeight(l) + ShiftOf(l.drawables)
  }

  /** The finished lines are good, each sits at the end of the previous band
      plus its own shift, the first band starts at zero, and `y` is where the
      band after the last line starts. */
  ghost predicate Done(r: Renderer, ls: seq<Line>, y: real)
    decreases |ls|
  {
    if ls == [] then y == 0.0
    else
      var l := ls[|ls| - 1];
      && GoodLine(r, l)
      && Done(r, ls[..|ls| - 1], l.offsetY - ShiftOf(l.drawables))
      && y == Bottom(l)
  }

  // ---------------------------------------------------------------------------
  // Content
  // ---------------------------------------------------------------------------

  /** A unit of visible content: one code unit of text in a colour, or an image. */
  datatype Glyph = Ch(c: CodeUnit, color: Color) | Pic(image: Image)

  function Chars(s: Str, color: Color): (g: seq<Glyph>)
    ensures |g| == |s|
  {
    seq(|s|, i requires 0 <= i < |s| => Ch(s[i], color))
  }

  function GlyphsOf(d: Drawable): seq<Glyph>
  {
    match d
    case Text(_, _, _, m, color) => Chars(m, color)
    case Emote(_, _, img) => [Pic(img)]
    case _ => []
  }

  /** The visible content of drawables, badges and user tag excluded. */
  function Glyphs(ds: seq<Drawable>): seq<Glyph>
  {
    if ds == [] then [] else Glyphs(ds[..|ds| - 1]) + GlyphsOf(ds[|ds| - 1])
  }

  function Flatten(ls: seq<Line>): seq<Drawable>
  {
    if ls == [] then [] else Flatten(ls[..|ls| - 1]) + ls[|ls| - 1].drawables
  }

  /** What a resolved word contributes: the word and one space in the chat
      colour, an image, or a cheer image followed by its amount in the tier colour. */
  function TokenGlyphs(r: Renderer, t: Token): seq<Glyph>
  {
    match t
    case Word(w) => Chars(w + [Space], r.chatColor)
    case Picture(img) => [Pic(img)]
    case CheerTok(img, amount, color) => [Pic(img)] + Chars(NatToStr(amount), color)
  }

  function Expected(r: Renderer, ts: seq<Token>): seq<Glyph>
  {
    if ts == [] then [] else TokenGlyphs(r, ts[0]) + Expected(r, ts[1..])
  }

  /** How a word at a cursor resolves, and how a resolved word of a given
      length is laid out: the two halves of one iteration of the word loop. */
  type Resolver = (Str, int) -> Result<Token, LayoutError>
  type Stepper = (State, Token, nat) -> State

  function ResolverOf(r: Renderer, msg: ChatMessage): Resolver
  {
    (w: Str, c: int) => Resolve(r, msg, w, c)
  }

  /** The body of the word loop once the word is resolved. */
  function PlaceStep(r: Renderer): Stepper
  {
    (s: State, t: Token, n: nat) =>
      var s1 := s.(cursor := s.cursor + n + 1);
      if Pending(s) then Place(r, s1, t) else s1
  }

  /** The words resolved one after another, the cursor advancing by each
      word's length plus one. */
  function Tokens(res: Resolver, words: seq<Str>, cursor: int): (out: Result<seq<Token>, LayoutError>)
    ensures out.Ok? ==> |out.value| == |words|
    decreases |words|
  {
    if words == [] then Ok([])
    else
      var t :- res(words[0], cursor);
      var rest :- Tokens(res, words[1..], cursor + |words[0]| + 1);
      Ok([t] + rest)
  }

  /** The word loop with its two halves as parameters. */
  function Loop(res: Resolver, f: Stepper, st: State, words: seq<Str>): Result<State, LayoutError>
    decreases |words|
  {
    if words == [] then Ok(st)
    else
      match res(words[0], st.cursor)
      case Err(e) => Err(e)
      case Ok(t) => Loop(res, f, f(st, t, |words[0]|), words[1..])
  }

  /** A left fold of a step over resolved words, the step also told the
      length of each word. */
  function Fold(f: Stepper, st: State, ts: seq<Token>, ns: seq<nat>): State
    requires |ts| == |ns|
    decreases |ts|
  {
    if ts == [] then st else Fold(f, f(st, ts[0], ns[0]), ts[1..], ns[1..])
  }

  function Lengths(words: seq<Str>): (ns: seq<nat>)
    ensures |ns| == |words|
    ensures forall i :: 0 <= i < |words| ==> ns[i] == |words[i]|
  {
    seq(|words|, i requires 0 <= i < |words| => |words[i]|)
  }

  lemma {:induction false} GlyphsAppend(a: seq<Drawable>, b: seq<Drawable>)
    ensures Glyphs(a + b) == Glyphs(a) + Glyphs(b)
    decreases |b|
  {
    if b != [] {
      var b' := b[..|b| - 1];
      assert (a + b)[..|a + b| - 1] == a + b';
      GlyphsAppend(a, b');
    } else {
      assert a + b == a;
    }
  }

  lemma CharsAppend(s: Str, t: Str, color: Color)
    ensures Chars(s + t, color) == Chars(s, color) + Chars(t, color)
  {
  }

  // ---------------------------------------------------------------------------
  // The loop invariant
  // ---------------------------------------------------------------------------

  /** The first line as it stands: the finished first line, or the current one. */
  function Front(st: State): seq<Drawable>
  {
    if st.lines == [] then st.dl else st.lines[0].drawables
  }

  /** The geometric part of the invariant, which holds between any two
      sub-steps of an iteration. */
  ghost predicate Core(r: Renderer, st: State)
  {
    Done(r, st.lines, st.y) && Current(r, st)
  }

  /** The current line is packed and fits, `x` is the pen after it, `shift`
      its shift, and pending text that follows a drawable fits behind the pen. */
  ghost predicate Current(r: Renderer, st: State)
  {
    && st.shift == ShiftOf(st.dl)
    && Packed(r, st.dl)
    && Fits(r, st.dl)
    && st.x == PenAfter(r, st.dl)
    && (|st.builder| > 0 && |st.dl| > 0 ==>
          st.x + r.measure(st.builder, Regular).width + HorizontalPad < r.width as real)
  }

  /** The content of the drawables placed so far. */
  function Laid(st: State): seq<Glyph>
  {
    Glyphs(Flatten(st.lines) + st.dl)
  }

  /** The content seen so far, pending text included. */
  function Seen(r: Renderer, st: State): seq<Glyph>
  {
    Laid(st) + Chars(st.builder, r.chatColor)
  }

  // ---------------------------------------------------------------------------
  // Line breaks
  // ---------------------------------------------------------------------------

  /** Text built from words: each word is followed by a space. Amount labels
      end in a digit instead. */
  predicate WordRun(m: Str)
  {
    |m| > 0 && m[|m| - 1] == Space
  }

  /** A resolved word taken as text is a single word. */
  predicate WordOk(t: Token)
  {
    t.Word? ==> NoSpace(t.w)
  }

  /** `d`, the first drawable of a line, was forced off the line `prev`
      before it. An emote breaks when the pen plus its width and the pad
      passes the width; an amount label when the pen plus its width and the
      pad reaches it; words when the first of them, appended to the text
      that ends `prev` (the pending text flushed at the break), would reach
      the width. Badges and the user tag never start a later line. */
  ghost predicate Forced(r: Renderer, prev: seq<Drawable>, d: Drawable)
  {
    match d
    case Emote(_, _, img) => PenAfter(r, prev) + img.width as real + HorizontalPad > r.width as real
    case Text(_, _, _, m, _) =>
      if WordRun(m) then
        && |prev| > 0 && prev[|prev| - 1].Text?
        && prev[|prev| - 1].offsetX + r.measure(prev[|prev| - 1].message + FirstTag(m), Regular).width
             + HorizontalPad >= r.width as real
      else
        PenAfter(r, prev) + r.measure(m, Regular).width + HorizontalPad >= r.width as real
    case _ => false
  }

  /** Every line after the first starts with a drawable forced off the line
      before it. */
  ghost predicate Breaks(r: Renderer, ls: seq<Line>)
  {
    forall j, k :: 0 <= j < |ls| && k == j + 1 && k < |ls| ==>
      |ls[j].drawables| > 0 && |ls[k].drawables| > 0 && Forced(r, ls[j].drawables, ls[k].drawables[0])
  }

  /** The line-break part of the invariant: the finished lines broke only
      when forced, pending text is a run of words, and a current line that
      follows a finished one starts with something forced onto it (pending
      text counting as the text it will become). */
  ghost predicate Broken(r: Renderer, st: State)
  {
    && Breaks(r, st.lines)
    && (|st.builder| > 0 ==> WordRun(st.builder))
    && (|st.lines| > 0 && |st.dl| > 0 ==> Forced(r, st.lines[|st.lines| - 1].drawables, st.dl[0]))
    && (|st.lines| > 0 && st.dl == [] && |st.builder| > 0 ==>
          Forced(r, st.lines[|st.lines| - 1].drawables, Text(st.x, 0.0, 0.0, st.builder, r.chatColor)))
  }
}

module LayoutSteps {
  import opened Wrappers
  import opened Text
  import opened Colors
  import opened Drawables
  import opened Bits
  import opened Layout
  import opened LayoutFacts

  /** Closing the current line, with no text pending, keeps both invariants
      and makes it the last finished line. */
  lemma NewLineKeeps(r: Renderer, st: State, st': State)
    requires Core(r, st) && Broken(r, st) && |st.dl| > 0 && st.builder == []
    requires st' == NewLine(st)
    ensures Core(r, st') && Broken(r, st') && Seen(r, st') == Seen(r, st) && Front(st) <= Front(st')
    ensures st'.dl == [] && st'.builder == st.builder && st'.cursor == st.cursor
    ensures st'.lines == st.lines + [Line(HorizontalPad, st.y + st.shift, st.dl)]
  {
    var l := Line(HorizontalPad, st.y + st.shift, st.dl);
    var ls := st.lines;
    assert st'.lines == ls + [l] && st'.y == Bottom(l);
    DoneAppend(r, ls, l, st.y);
    BreaksAppend(r, ls, l, st.y);
    assert Current(r, st') by {
      assert st'.dl == [] && st'.x == HorizontalPad && st'.shift == 0.0;
    }
    assert (ls + [l])[..|ls|] == ls;
    assert Flatten(st'.lines) + st'.dl == Flatten(ls) + st.dl;
  }

  /** The optional line break before an image or an amount label. */
  lemma MaybeBreak(r: Renderer, st: State, brk: bool, s1: State)
    requires Core(r, st) && Broken(r, st) && |st.dl| > 0 && st.builder == []
    requires s1 == if brk then NewLine(st) else st
    ensures Core(r, s1) && Broken(r, s1) && Seen(r, s1) == Seen(r, st) && Front(st) <= Front(s1)
    ensures s1.builder == st.builder && s1.cursor == st.cursor
    ensures brk ==> s1.dl == [] && s1.lines == st.lines + [Line(HorizontalPad, st.y + st.shift, st.dl)]
  {
    if brk {
      NewLineKeeps(r, st, s1);
    }
  }

  lemma PackedAppend(r: Renderer, ds: seq<Drawable>, d: Drawable)
    requires Packed(r, ds) && d.offsetX == PenAfter(r, ds) + Lead(d)
    ensures Packed(r, ds + [d])
  {
    assert (ds + [d])[..|ds|] == ds;
  }

  lemma FitsAppend(r: Renderer, ds: seq<Drawable>, d: Drawable)
    requires Fits(r, ds) && (|ds| > 0 ==> FitsAt(r, d))
    ensures Fits(r, ds + [d])
  {
    assert (ds + [d])[..|ds|] == ds;
  }

  lemma ShiftAppend(ds: seq<Drawable>, d: Drawable)
    ensures ShiftOf(ds + [d]) == MaxShift(ShiftOf(ds), d.offsetY)
  {
    assert (ds + [d])[..|ds|] == ds;
  }

  lemma GlyphsSnoc(ds: seq<Drawable>, d: Drawable)
    ensures Glyphs(ds + [d]) == Glyphs(ds) + GlyphsOf(d)
  {
    assert (ds + [d])[..|ds|] == ds;
  }

  /** Appending one drawable at the pen keeps the current line's invariant;
      `b` is the pending text afterwards. */
  lemma AppendCurrent(r: Renderer, st: State, d: Drawable, b: Str, st': State)
    requires Current(r, st)
    requires d.offsetX == st.x + Lead(d)
    requires |st.dl| > 0 ==> FitsAt(r, d)
    requires st' == st.(dl := st.dl + [d], shift := MaxShift(st.shift, d.offsetY), x := d.offsetX + Advance(r, d), builder := b)
    requires |b| > 0 ==> st'.x + r.measure(b, Regular).width + HorizontalPad < r.width as real
    ensures Current(r, st')
  {
    PackedAppend(r, st.dl, d);
    FitsAppend(r, st.dl, d);
    ShiftAppend(st.dl, d);
  }

  lemma AppendKeeps(r: Renderer, st: State, d: Drawable, b: Str, st': State)
    requires Core(r, st)
    requires d.offsetX == st.x + Lead(d)
    requires |st.dl| > 0 ==> FitsAt(r, d)
    requires st' == st.(dl := st.dl + [d], shift := MaxShift(st.shift, d.offsetY), x := d.offsetX + Advance(r, d), builder := b)
    requires |b| > 0 ==> st'.x + r.measure(b, Regular).width + HorizontalPad < r.width as real
    ensures Core(r, st')
    ensures Laid(st') == Laid(st) + GlyphsOf(d)
    ensures Front(st) <= Front(st')
  {
    AppendCurrent(r, st, d, b, st');
    assert st'.lines == st.lines && st'.y == st.y;
    assert Flatten(st.lines) + (st.dl + [d]) == (Flatten(st.lines) + st.dl) + [d];
    GlyphsSnoc(Flatten(st.lines) + st.dl, d);
  }

  lemma SeenNoText(r: Renderer, st: State)
    requires st.builder == []
    ensures Seen(r, st) == Laid(st)
  {
    assert Chars([], r.chatColor) == [];
  }

  lemma FlushKeeps(r: Renderer, st: State)
    requires Core(r, st) && Broken(r, st) && Pending(st)
    ensures Core(r, Flush(r, st)) && Broken(r, Flush(r, st))
    ensures Seen(r, Flush(r, st)) == Seen(r, st)
    ensures Front(st) <= Front(Flush(r, st))
    ensures Flush(r, st).builder == [] && |Flush(r, st).dl| > 0
    ensures Flush(r, st).lines == st.lines && Flush(r, st).cursor == st.cursor
  {
    var sz := r.measure(st.builder, Regular);
    var d := Text(st.x, 0.0, sz.height, st.builder, r.chatColor);
    var st' := Flush(r, st);
    assert st'.shift == MaxShift(st.shift, d.offsetY);
    AppendKeeps(r, st, d, [], st');
    SeenNoText(r, st');
    assert st'.dl[0] == if st.dl == [] then d else st.dl[0];
  }

  /** Appending an emote to a state whose current line has room for it. */
  lemma EmoteAfter(r: Renderer, s1: State, img: Image, st': State)
    requires Core(r, s1) && Broken(r, s1) && s1.builder == []
    requires |s1.dl| > 0 ==> s1.x + img.width as real + HorizontalPad <= r.width as real
    requires |s1.lines| > 0 && s1.dl == [] ==>
               PenAfter(r, s1.lines[|s1.lines| - 1].drawables) + img.width as real + HorizontalPad > r.width as real
    requires var align := Align(r.fontHeight as real, img.height as real);
             st' == s1.(shift := MaxShift(s1.shift, align),
                        dl := s1.dl + [Emote(s1.x + EmotePad, align, img)],
                        x := s1.x + EmotePad + img.width as real)
    ensures Core(r, st')
    ensures Seen(r, st') == Seen(r, s1) + [Pic(img)]
    ensures Front(s1) <= Front(st')
    ensures Broken(r, st') && st'.lines == s1.lines
  {
    var d := Emote(s1.x + EmotePad, Align(r.fontHeight as real, img.height as real), img);
    assert d.offsetX + Advance(r, d) == s1.x + EmotePad + img.width as real;
    assert |s1.dl| > 0 ==> FitsAt(r, d);
    AppendKeeps(r, s1, d, [], st');
    SeenNoText(r, s1);
    SeenNoText(r, st');
    assert st'.dl[0] == if s1.dl == [] then d else s1.dl[0];
  }

  /** An image goes behind the pen, or first on a new line exactly when the
      pen plus its width and the pad would pass the width; the line it
      leaves is closed as it stands. */
  lemma PlaceImageKeeps(r: Renderer, st: State, img: Image, st': State)
    requires Core(r, st) && Broken(r, st) && |st.dl| > 0 && st.builder == []
    requires st' == PlaceImage(r, st, img)
    ensures Core(r, st') && Seen(r, st') == Seen(r, st) + [Pic(img)] && Front(st) <= Front(st')
    ensures st'.builder == [] && st'.cursor == st.cursor
    ensures Broken(r, st')
    ensures st'.lines == st.lines + (if st.x + img.width as real + HorizontalPad > r.width as real
                                     then [Line(HorizontalPad, st.y + st.shift, st.dl)] else [])
  {
    var brk := st.x + img.width as real + HorizontalPad > r.width as real;
    var s1 := if brk then NewLine(st) else st;
    MaybeBreak(r, st, brk, s1);
    EmoteAfter(r, s1, img, st');
    PrefixTrans(Front(st), Front(s1), Front(st'));
  }

  /** Appending an amount label to a state whose current line has room for it. */
  lemma AmountAfter(r: Renderer, s1: State, txt: Str, color: Color, st': State)
    requires Core(r, s1) && Broken(r, s1) && s1.builder == [] && !WordRun(txt)
    requires |s1.dl| > 0 ==> s1.x + r.measure(txt, Regular).width + HorizontalPad < r.width as real
    requires |s1.lines| > 0 && s1.dl == [] ==>
               PenAfter(r, s1.lines[|s1.lines| - 1].drawables) + r.measure(txt, Regular).width + HorizontalPad
                 >= r.width as real
    requires var sz := r.measure(txt, Regular);
             st' == s1.(dl := s1.dl + [Text(s1.x, 0.0, sz.height, txt, color)], x := s1.x + sz.width)
    ensures Core(r, st')
    ensures Seen(r, st') == Seen(r, s1) + Chars(txt, color)
    ensures Front(s1) <= Front(st')
    ensures Broken(r, st') && st'.lines == s1.lines
  {
    var d := Text(s1.x, 0.0, r.measure(txt, Regular).height, txt, color);
    assert st'.shift == MaxShift(s1.shift, d.offsetY);
    AppendKeeps(r, s1, d, [], st');
    SeenNoText(r, s1);
    SeenNoText(r, st');
    assert st'.dl[0] == if s1.dl == [] then d else s1.dl[0];
  }

  /** The amount label goes behind the pen, or first on a new line exactly
      when the pen plus its width and the pad would reach the width. */
  lemma PlaceAmountKeeps(r: Renderer, st: State, amount: nat, color: Color, st': State)
    requires Core(r, st) && Broken(r, st) && |st.dl| > 0 && st.builder == []
    requires st' == PlaceAmount(r, st, amount, color)
    ensures Core(r, st') && Seen(r, st') == Seen(r, st) + Chars(NatToStr(amount), color) && Front(st) <= Front(st')
    ensures st'.builder == [] && st'.cursor == st.cursor
    ensures Broken(r, st')
    ensures st'.lines == st.lines + (if st.x + r.measure(NatToStr(amount), Regular).width + HorizontalPad >= r.width as real
                                     then [Line(HorizontalPad, st.y + st.shift, st.dl)] else [])
  {
    var txt := NatToStr(amount);
    assert IsAsciiDigit(txt[|txt| - 1]);
    var brk := st.x + r.measure(txt, Regular).width + HorizontalPad >= r.width as real;
    var s1 := if brk then NewLine(st) else st;
    MaybeBreak(r, st, brk, s1);
    if brk {
      assert s1.lines[|s1.lines| - 1].drawables == st.dl;
    }
    AmountAfter(r, s1, txt, color, st');
    PrefixTrans(Front(st), Front(s1), Front(st'));
  }

  /** A word that starts the next line becomes its pending text. */
  lemma WordOnNewLine(r: Renderer, s2: State, tag: Str, st': State)
    requires Core(r, s2) && Broken(r, s2) && s2.dl == [] && s2.builder == [] && WordRun(tag)
    requires |s2.lines| > 0 ==> Forced(r, s2.lines[|s2.lines| - 1].drawables, Text(s2.x, 0.0, 0.0, tag, r.chatColor))
    requires st' == s2.(builder := tag)
    ensures Core(r, st') && Broken(r, st')
    ensures Seen(r, st') == Seen(r, s2) + Chars(tag, r.chatColor)
    ensures Front(s2) == Front(st')
  {
    assert Chars([], r.chatColor) == [];
  }

  /** A word that fits is appended to the pending text. */
  lemma WordOnSameLine(r: Renderer, st: State, tag: Str, st': State)
    requires Core(r, st) && Broken(r, st) && Pending(st) && WordRun(tag)
    requires st.x + r.measure(st.builder + tag, Regular).width + HorizontalPad < r.width as real
    requires st' == st.(builder := st.builder + tag)
    ensures Core(r, st') && Broken(r, st')
    ensures Seen(r, st') == Seen(r, st) + Chars(tag, r.chatColor)
    ensures Front(st) == Front(st')
  {
    CharsAppend(st.builder, tag, r.chatColor);
    if |st.builder| > 0 {
      FirstTagAppend(st.builder, tag);
    }
  }

  /** A word joins the pending text, or the pending text is flushed, the
      line closed and the word starts the next line, exactly when the grown
      text would reach the width. */
  lemma PlaceWordKeeps(r: Renderer, st: State, w: Str)
    requires Core(r, st) && Broken(r, st) && Pending(st) && NoSpace(w)
    ensures Core(r, PlaceWord(r, st, w)) && Broken(r, PlaceWord(r, st, w))
    ensures Seen(r, PlaceWord(r, st, w)) == Seen(r, st) + Chars(w + [Space], r.chatColor)
    ensures Front(st) <= Front(PlaceWord(r, st, w))
    ensures PlaceWord(r, st, w).cursor == st.cursor
    ensures st.lines <= PlaceWord(r, st, w).lines
    ensures |PlaceWord(r, st, w).lines| == |st.lines| +
              (if st.x + r.measure(st.builder + (w + [Space]), Regular).width + HorizontalPad >= r.width as real
               then 1 else 0)
  {
    var tag := w + [Space];
    var st' := PlaceWord(r, st, w);
    assert WordRun(tag);
    if st.x + r.measure(st.builder + tag, Regular).width + HorizontalPad >= r.width as real {
      FlushKeeps(r, st);
      var s1 := Flush(r, st);
      var s2 := NewLine(s1);
      NewLineKeeps(r, s1, s2);
      FirstTagOfTag(w, []);
      assert tag + [] == tag;
      assert s2.lines[|s2.lines| - 1].drawables == s1.dl;
      assert s1.dl[|s1.dl| - 1] == Text(st.x, 0.0, r.measure(st.builder, Regular).height, st.builder, r.chatColor);
      WordOnNewLine(r, s2, tag, st');
    } else {
      WordOnSameLine(r, st, tag, st');
    }
  }

  lemma FlushIfAnyKeeps(r: Renderer, st: State)
    requires Core(r, st) && Broken(r, st) && Pending(st)
    ensures Core(r, FlushIfAny(r, st)) && Broken(r, FlushIfAny(r, st))
    ensures Seen(r, FlushIfAny(r, st)) == Seen(r, st)
    ensures Front(st) <= Front(FlushIfAny(r, st))
    ensures FlushIfAny(r, st).builder == [] && |FlushIfAny(r, st).dl| > 0
    ensures FlushIfAny(r, st).cursor == st.cursor
  {
    if |st.builder| > 0 {
      FlushKeeps(r, st);
    }
  }

  lemma PictureKeeps(r: Renderer, st: State, img: Image, st': State)
    requires Core(r, st) && Broken(r, st) && Pending(st)
    requires st' == Place(r, st, Picture(img))
    ensures Core(r, st') && Broken(r, st') && Seen(r, st') == Seen(r, st) + [Pic(img)] && Front(st) <= Front(st')
    ensures st'.builder == [] && |st'.dl| > 0
  {
    var s1 := FlushIfAny(r, st);
    FlushIfAnyKeeps(r, st);
    PlaceImageKeeps(r, s1, img, st');
    PrefixTrans(Front(st), Front(s1), Front(st'));
  }

  lemma CheerKeeps(r: Renderer, st: State, img: Image, amount: nat, color: Color, st': State)
    requires Core(r, st) && Broken(r, st) && Pending(st)
    requires st' == Place(r, st, CheerTok(img, amount, color))
    ensures Core(r, st') && Broken(r, st') && Front(st) <= Front(st')
    ensures Seen(r, st') == Seen(r, st) + ([Pic(img)] + Chars(NatToStr(amount), color))
  {
    var s2 := Place(r, st, Picture(img));
    PictureKeeps(r, st, img, s2);
    PlaceAmountKeeps(r, s2, amount, color, st');
    SeqAssoc(Seen(r, st), [Pic(img)], Chars(NatToStr(amount), color));
    PrefixTrans(Front(st), Front(s2), Front(st'));
  }

  /** Placing one resolved word keeps the invariant and adds exactly the
      word's content. */
  lemma PlaceKeeps(r: Renderer, st: State, tok: Token, st': State)
    requires Core(r, st) && Broken(r, st) && Pending(st) && WordOk(tok)
    requires st' == Place(r, st, tok)
    ensures Core(r, st') && Broken(r, st') && Seen(r, st') == Seen(r, st) + TokenGlyphs(r, tok) && Front(st) <= Front(st')
  {
    match tok
    case Picture(img) => PictureKeeps(r, st, img, st');
    case CheerTok(img, amount, color) => CheerKeeps(r, st, img, amount, color, st');
    case Word(w) => PlaceWordKeeps(r, st, w);
  }

  lemma SeqAssoc<T>(a: seq<T>, b: seq<T>, c: seq<T>)
    ensures (a + b) + c == a + (b + c)
  {
  }

  lemma PrefixTrans<T>(a: seq<T>, b: seq<T>, c: seq<T>)
    requires a <= b && b <= c
    ensures a <= c
  {
    assert c[..|b|][..|a|] == c[..|a|];
  }

  /** The invariant does not look at the cursor. */
  lemma CursorKeeps(r: Renderer, st: State, c: int)
    requires Core(r, st) && Broken(r, st)
    ensures Core(r, st.(cursor := c)) && Broken(r, st.(cursor := c))
    ensures Seen(r, st.(cursor := c)) == Seen(r, st) && Front(st.(cursor := c)) == Front(st)
  {
  }

  /** One iteration of the source's loop is one resolution followed by one
      placement step. */
  lemma StepIsPlaceStep(r: Renderer, msg: ChatMessage, st: State, w: Str)
    requires Pending(st)
    ensures Step(r, msg, st, w).Ok? <==> ResolverOf(r, msg)(w, st.cursor).Ok?
    ensures Step(r, msg, st, w).Ok? ==>
              Step(r, msg, st, w).value == PlaceStep(r)(st, ResolverOf(r, msg)(w, st.cursor).value, |w|)
  {
    var t := Resolve(r, msg, w, st.cursor);
    assert ResolverOf(r, msg)(w, st.cursor) == t;
    if t.Ok? {
      var placed := Place(r, st.(cursor := st.cursor + |w| + 1), t.value);
      assert Step(r, msg, st, w) == Ok(placed);
      assert PlaceStep(r)(st, t.value, |w|) == placed;
    }
  }

  /** The source's loop is the generic loop with `Resolve` and `Place`. */
  lemma {:induction false} RunIsLoop(r: Renderer, msg: ChatMessage, st: State, words: seq<Str>)
    requires Pending(st)
    ensures Run(r, msg, st, words) == Loop(ResolverOf(r, msg), PlaceStep(r), st, words)
    decreases |words|
  {
    if words != [] {
      StepIsPlaceStep(r, msg, st, words[0]);
      var s := Step(r, msg, st, words[0]);
      if s.Ok? {
        RunIsLoop(r, msg, s.value, words[1..]);
      }
    }
  }

  /** A step that moves the cursor past the word and its space. */
  ghost predicate Advances(f: Stepper)
  {
    forall s, t, n :: f(s, t, n).cursor == s.cursor + n + 1
  }

  lemma PlaceStepAdvances(r: Renderer)
    ensures Advances(PlaceStep(r))
  {
    forall s, t, n
      ensures PlaceStep(r)(s, t, n).cursor == s.cursor + n + 1
    {
      var s1 := s.(cursor := s.cursor + n + 1);
      if Pending(s) {
        assert PlaceStep(r)(s, t, n) == Place(r, s1, t);
      }
    }
  }

  /** The loop fails exactly when some word fails to resolve, and otherwise
      folds the step over the resolved words. */
  lemma {:induction false} LoopIsFold(res: Resolver, f: Stepper, st: State, words: seq<Str>)
    requires Advances(f)
    ensures Loop(res, f, st, words).Ok? <==> Tokens(res, words, st.cursor).Ok?
    ensures Loop(res, f, st, words).Ok? ==>
              Loop(res, f, st, words).value == Fold(f, st, Tokens(res, words, st.cursor).value, Lengths(words))
    decreases |words|
  {
    if words != [] {
      var w := words[0];
      match res(w, st.cursor)
      case Err(e) =>
      case Ok(t) =>
        var st1 := f(st, t, |w|);
        assert st1.cursor == st.cursor + |w| + 1;
        LoopIsFold(res, f, st1, words[1..]);
        var ts := Tokens(res, words, st.cursor);
        if ts.Ok? {
          assert ts.value[0] == t && ts.value[1..] == Tokens(res, words[1..], st1.cursor).value;
          assert Lengths(words)[0] == |w| && Lengths(words)[1..] == Lengths(words[1..]);
        }
    }
  }

  /** A step that keeps the invariant and adds exactly the content of the
      word it places. */
  ghost predicate GoodStep(r: Renderer, f: Stepper)
  {
    forall s, t, n :: Core(r, s) && Broken(r, s) && Pending(s) && WordOk(t) ==>
      && Core(r, f(s, t, n))
      && Broken(r, f(s, t, n))
      && Pending(f(s, t, n))
      && Seen(r, f(s, t, n)) == Seen(r, s) + TokenGlyphs(r, t)
      && Front(s) <= Front(f(s, t, n))
  }

  lemma PlaceStepGood(r: Renderer)
    ensures GoodStep(r, PlaceStep(r))
  {
    forall s, t, n | Core(r, s) && Broken(r, s) && Pending(s) && WordOk(t)
      ensures && Core(r, PlaceStep(r)(s, t, n))
              && Broken(r, PlaceStep(r)(s, t, n))
              && Pending(PlaceStep(r)(s, t, n))
              && Seen(r, PlaceStep(r)(s, t, n)) == Seen(r, s) + TokenGlyphs(r, t)
              && Front(s) <= Front(PlaceStep(r)(s, t, n))
    {
      var s' := PlaceStep(r)(s, t, n);
      assert s' == Place(r, s.(cursor := s.cursor + n + 1), t);
      PlaceNextKeeps(r, s, t, n, s');
    }
  }

  /** The next resolved word, at the cursor after a word of length `n`. */
  lemma PlaceNextKeeps(r: Renderer, st: State, tok: Token, n: nat, st': State)
    requires Core(r, st) && Broken(r, st) && Pending(st) && WordOk(tok)
    requires st' == Place(r, st.(cursor := st.cursor + n + 1), tok)
    ensures Core(r, st') && Broken(r, st') && Pending(st')
    ensures Seen(r, st') == Seen(r, st) + TokenGlyphs(r, tok)
    ensures Front(st) <= Front(st')
  {
    CursorKeeps(r, st, st.cursor + n + 1);
    PlaceKeeps(r, st.(cursor := st.cursor + n + 1), tok, st');
  }

  /** Folding a good step keeps the invariant, adds the content of every
      word in order and only extends the first line. */
  lemma {:induction false} FoldKeeps(r: Renderer, f: Stepper, st: State, ts: seq<Token>, ns: seq<nat>)
    requires GoodStep(r, f) && Core(r, st) && Broken(r, st) && Pending(st) && |ts| == |ns|
    requires forall i :: 0 <= i < |ts| ==> WordOk(ts[i])
    ensures Core(r, Fold(f, st, ts, ns)) && Broken(r, Fold(f, st, ts, ns)) && Pending(Fold(f, st, ts, ns))
    ensures Seen(r, Fold(f, st, ts, ns)) == Seen(r, st) + Expected(r, ts)
    ensures Front(st) <= Front(Fold(f, st, ts, ns))
    decreases |ts|
  {
    if ts == [] {
      assert Seen(r, st) + [] == Seen(r, st);
    } else {
      var st1 := f(st, ts[0], ns[0]);
      FoldKeeps(r, f, st1, ts[1..], ns[1..]);
      SeqAssoc(Seen(r, st), TokenGlyphs(r, ts[0]), Expected(r, ts[1..]));
      PrefixTrans(Front(st), Front(st1), Front(Fold(f, st1, ts[1..], ns[1..])));
    }
  }

  /** Closing a line forced off the last finished one keeps the breaks forced. */
  lemma BreaksAppend(r: Renderer, ls: seq<Line>, l: Line, y: real)
    requires Done(r, ls, y) && Breaks(r, ls) && |l.drawables| > 0
    requires |ls| > 0 ==> Forced(r, ls[|ls| - 1].drawables, l.drawables[0])
    ensures Breaks(r, ls + [l])
  {
    var ls' := ls + [l];
    forall j, k | 0 <= j < |ls'| && k == j + 1 && k < |ls'|
      ensures |ls'[j].drawables| > 0 && |ls'[k].drawables| > 0 && Forced(r, ls'[j].drawables, ls'[k].drawables[0])
    {
      assert ls'[j] == ls[j];
      if k < |ls| {
        assert ls'[k] == ls[k];
      } else {
        assert ls'[k] == l && ls[j] == ls[|ls| - 1];
      }
    }
    assert Breaks(r, ls');
  }

  lemma DoneAppend(r: Renderer, ls: seq<Line>, l: Line, y: real)
    requires Done(r, ls, y) && GoodLine(r, l) && l.offsetY == y + ShiftOf(l.drawables)
    ensures Done(r, ls + [l], Bottom(l))
  {
    assert (ls + [l])[..|ls|] == ls && (ls + [l])[|ls|] == l;
    assert l.offsetY - ShiftOf(l.drawables) == y;
  }
}
