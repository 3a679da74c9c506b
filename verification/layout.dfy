/** `ChatHandler.MakeDrawableMessage`: one chat message laid out as lines of
    positioned drawables. The layout is a left fold over the message's words;
    text measurement and every image lookup are oracles carried by `Renderer`. */
module Layout {
  import opened Wrappers
  import opened Text
  import opened Colors
  import opened Drawables
  import opened Bits

  datatype EmoteRef = EmoteRef(id: Str, begin: int, end: int)

  datatype BadgeRef = BadgeRef(id: Str, version: Str)

  /** The fields of a chat message the layout reads. `color` is the author
      colour, already chosen; `source` is None when the JSON had no source. */
  datatype ChatMessage = ChatMessage(
    name: Str,
    color: Color,
    text: Str,
    emotes: seq<EmoteRef>,
    badges: seq<BadgeRef>,
    bits: int,
    source: Option<Str>)

  /** The chat handler's settings and collaborators. Every lookup answers
      None where the original returns null (missing emote, failed download,
      absent provider). */
  datatype Renderer = Renderer(
    measure: (Str, FontStyle) -> Size,
    fontHeight: nat,
    width: int,
    chatColor: Color,
    bgColor: Color,
    showBadges: bool,
    emojiExists: Str -> bool,
    emoji: Str -> Option<Image>,
    ffz: Str -> Option<Image>,
    bttv: Str -> Option<Image>,
    nativeEmote: Str -> Option<Image>,
    badge: (Str, Str) -> Option<Image>,
    bits: Option<CheerTable>,
    cheerImage: Str -> Option<Image>)

  /** Why laying out a message can throw. */
  datatype LayoutError =
    | CheerFailed(cause: BitsError)   // an exception out of Bits.GetCheer
    | NullCheerImage                  // a positive cheer whose image download failed

  // ---------------------------------------------------------------------------
  // Text normalisation
  // ---------------------------------------------------------------------------

  /** Each adjacent pair of surrogate code units (one supplementary character)
      becomes " pair " when it is a known emoji and "?" otherwise; matches do
      not overlap and are taken left to right. */
  function Normalize(s: Str, emojiExists: Str -> bool): (r: Str)
    ensures (forall i :: 0 <= i < |s| ==> !IsSurrogate(s[i])) ==> r == s
    decreases |s|
  {
    if |s| >= 2 && IsSurrogate(s[0]) && IsSurrogate(s[1]) then
      (if emojiExists(s[..2]) then [Space] + s[..2] + [Space] else [Question]) + Normalize(s[2..], emojiExists)
    else if s == [] then []
    else [s[0]] + Normalize(s[1..], emojiExists)
  }

  // ---------------------------------------------------------------------------
  // Token resolution
  // ---------------------------------------------------------------------------

  /** What one word becomes. */
  datatype Token =
    | Word(w: Str)
    | Picture(image: Image)
    | CheerTok(image: Image, amount: nat, color: Color)

  /** `message.Emotes.FirstOrDefault(e => e.Begin == cursor)`. */
  function EmoteAt(emotes: seq<EmoteRef>, cursor: int): (r: Option<EmoteRef>)
    ensures r.Some? ==> r.value in emotes && r.value.begin == cursor
    ensures r.Some? ==> exists i :: (0 <= i < |emotes| && emotes[i] == r.value
              && forall j :: 0 <= j < i ==> emotes[j].begin != cursor)
    ensures r.None? ==> forall i :: 0 <= i < |emotes| ==> emotes[i].begin != cursor
  {
    if emotes == [] then None
    else if emotes[0].begin == cursor then Some(emotes[0])
    else
      var r := EmoteAt(emotes[1..], cursor);
      if r.Some? then
        var i :| 0 <= i < |emotes[1..]| && emotes[1..][i] == r.value
                 && forall j :: 0 <= j < i ==> emotes[1..][j].begin != cursor;
        assert emotes[i + 1] == r.value;
        r
      else r
  }

  /** The emote image for a word: emoji, then FFZ, then BTTV, then the native
      emote whose offset is the cursor. */
  function EmoteFor(r: Renderer, msg: ChatMessage, word: Str, cursor: int): Option<Image>
  {
    var native := match EmoteAt(msg.emotes, cursor)
                  case Some(e) => r.nativeEmote(e.id)
                  case None => None;
    r.emoji(word).OrElse(r.ffz(word)).OrElse(r.bttv(word)).OrElse(native)
  }

  /** How one word at character offset `cursor` resolves. */
  function Resolve(r: Renderer, msg: ChatMessage, word: Str, cursor: int): (t: Result<Token, LayoutError>)
  {
    var emote := EmoteFor(r, msg, word, cursor);
    if emote.Some? then Ok(Picture(emote.value))
    else if msg.bits > 0 && r.bits.Some? then
      match CheerOf(r.bits.value, word, r.cheerImage)
      case Err(e) => Err(CheerFailed(e))
      case Ok(c) =>
        if c.amount > 0 then
          (if c.emote.Some? then Ok(CheerTok(c.emote.value, c.amount, c.color)) else Err(NullCheerImage))
        else Ok(Word(word))
    else Ok(Word(word))
  }

  // ---------------------------------------------------------------------------
  // The fold
  // ---------------------------------------------------------------------------

  /** The layout's local variables between two words. */
  datatype State = State(
    x: real,
    y: real,
    shift: real,        // maximum_y_offset
    cursor: int,
    builder: Str,
    dl: seq<Drawable>,
    lines: seq<Line>)

  /** Either a drawable or some pending text is waiting for the current line. */
  predicate Pending(st: State)
  {
    |st.dl| > 0 || |st.builder| > 0
  }

  /** The `new_line` delegate: close the current line and start the next band. */
  function NewLine(st: State): State
    requires |st.dl| > 0
  {
    var line := Line(HorizontalPad, st.y + st.shift, st.dl);
    st.(y := st.y + st.shift + st.shift + LineHeight(line),
        shift := 0.0,
        dl := [],
        x := HorizontalPad,
        lines := st.lines + [line])
  }

  /** The `empty_builder` delegate: the pending text becomes a Text drawable. */
  function Flush(r: Renderer, st: State): State
  {
    var sz := r.measure(st.builder, Regular);
    st.(dl := st.dl + [Text(st.x, 0.0, sz.height, st.builder, r.chatColor)],
        builder := [],
        x := st.x + sz.width)
  }

  function FlushIfAny(r: Renderer, st: State): (st': State)
    ensures Pending(st) ==> |st'.dl| > 0
  {
    if |st.builder| > 0 then Flush(r, st) else st
  }

  /** Vertical offset that centres an image of height h on a band of height fh. */
  function Align(fh: real, h: real): real
  {
    fh * 0.5 - h * 0.5
  }

  function MaxShift(shift: real, align: real): real
  {
    if align < 0.0 && shift < -align then -align else shift
  }

  /** Place an inline image, breaking the line first when it would overflow. */
  function PlaceImage(r: Renderer, st: State, img: Image): (st': State)
    requires |st.dl| > 0
    ensures |st'.dl| > 0
  {
    var s1 := if st.x + img.width as real + HorizontalPad > r.width as real then NewLine(st) else st;
    var align := Align(r.fontHeight as real, img.height as real);
    s1.(shift := MaxShift(s1.shift, align),
        dl := s1.dl + [Emote(s1.x + EmotePad, align, img)],
        x := s1.x + EmotePad + img.width as real)
  }

  /** The amount label after a cheer image, with its own overflow test. */
  function PlaceAmount(r: Renderer, st: State, amount: nat, color: Color): (st': State)
    requires |st.dl| > 0
    ensures |st'.dl| > 0
  {
    var txt := NatToStr(amount);
    var sz := r.measure(txt, Regular);
    var s1 := if st.x + sz.width + HorizontalPad >= r.width as real then NewLine(st) else st;
    s1.(dl := s1.dl + [Text(s1.x, 0.0, sz.height, txt, color)], x := s1.x + sz.width)
  }

  /** Append a word and a space to the pending text, or, when the grown text
      would not fit, flush the pending text, break the line and start the
      next text with the word. */
  function PlaceWord(r: Renderer, st: State, word: Str): (st': State)
    ensures |st'.builder| > 0
  {
    var tag := word + [Space];
    var sz := r.measure(st.builder + tag, Regular);
    if st.x + sz.width + HorizontalPad >= r.width as real then
      NewLine(Flush(r, st)).(builder := tag)
    else
      st.(builder := st.builder + tag)
  }

  /** One iteration of the word loop. */
  function Step(r: Renderer, msg: ChatMessage, st: State, word: Str): (res: Result<State, LayoutError>)
    requires Pending(st)
    ensures res.Ok? ==> Pending(res.value)
    ensures res.Ok? ==> res.value.cursor == st.cursor + |word| + 1
    ensures res.Ok? <==> Resolve(r, msg, word, st.cursor).Ok?
  {
    var tok :- Resolve(r, msg, word, st.cursor);
    Ok(Place(r, st.(cursor := st.cursor + |word| + 1), tok))
  }

  /** Lay out one resolved word: images flush the pending text first. */
  function Place(r: Renderer, st: State, tok: Token): (st': State)
    requires Pending(st)
    ensures Pending(st') && st'.cursor == st.cursor
  {
    match tok
    case Picture(img) => PlaceImage(r, FlushIfAny(r, st), img)
    case CheerTok(img, amount, color) => PlaceAmount(r, PlaceImage(r, FlushIfAny(r, st), img), amount, color)
    case Word(w) => PlaceWord(r, st, w)
  }

  /** The word loop. */
  function Run(r: Renderer, msg: ChatMessage, st: State, words: seq<Str>): (res: Result<State, LayoutError>)
    requires Pending(st)
    ensures res.Ok? ==> Pending(res.value)
    decreases |words|
  {
    if words == [] then Ok(st)
    else
      var st1 :- Step(r, msg, st, words[0]);
      Run(r, msg, st1, words[1..])
  }

  /** The badges and the user tag, laid out before the first word. */
  function Header(r: Renderer, msg: ChatMessage): (st: State)
    ensures |st.dl| > 0 && st.builder == [] && st.lines == [] && st.cursor == 0 && st.y == 0.0
  {
    var tag := msg.name + [Colon];
    var size := r.measure(tag, Bold);
    var st0 := State(HorizontalPad, 0.0, 0.0, 0, [], [], []);
    var st1 := if r.showBadges then PlaceBadges(r, size.height, st0, msg.badges) else st0;
    st1.(dl := st1.dl + [User(st1.x, 0.0, size.height, tag, Contrast(msg.color, r.bgColor))],
         x := st1.x + size.width)
  }

  /** The resolvable badges, left to right, each followed by the badge pad. */
  function PlaceBadges(r: Renderer, userHeight: real, st: State, badges: seq<BadgeRef>): (st': State)
    ensures st'.builder == st.builder && st'.lines == st.lines && st'.cursor == st.cursor && st'.y == st.y
    decreases |badges|
  {
    if badges == [] then st
    else
      var next :=
        match r.badge(badges[0].id, badges[0].version)
        case None => st
        case Some(img) =>
          var align := Align(userHeight, img.height as real);
          st.(shift := MaxShift(st.shift, align),
              dl := st.dl + [Badge(st.x, align, img)],
              x := st.x + img.width as real + BadgePad);
      PlaceBadges(r, userHeight, next, badges[1..])
  }

  /** After the last word: flush the pending text and close the last line. */
  function Finish(r: Renderer, st: State): seq<Line>
  {
    var s1 := FlushIfAny(r, st);
    if |s1.dl| > 0 then NewLine(s1).lines else s1.lines
  }

  /** The words of a message, after surrogate normalisation. */
  function MessageWords(r: Renderer, msg: ChatMessage): seq<Str>
  {
    Words(Normalize(msg.text, r.emojiExists))
  }

  /** `MakeDrawableMessage`. `startFrame` is the message's time offset already
      converted to a frame number. */
  function MakeDrawableMessage(r: Renderer, msg: ChatMessage, startFrame: nat): Result<DrawableMessage, LayoutError>
  {
    var st :- Run(r, msg, Header(r, msg), MessageWords(r, msg));
    Ok(DrawableMessage(Finish(r, st), startFrame, msg.source == Some(ChatSource)))
  }
}
