/** The guarantees of `MakeDrawableMessage` as a whole: when it fails, what
    the lines look like, what they show, and where the header goes. */
module LayoutTheorems {
  import opened Wrappers
  import opened Text
  import opened Colors
  import opened Drawables
  import opened Bits
  import opened Layout
  import opened LayoutFacts
  import opened LayoutSteps

  // ---------------------------------------------------------------------------
  // The shape of the result, stated index by index
  // ---------------------------------------------------------------------------

  /** Each drawable starts where the one before it ends, after its lead; the
      first one starts at the horizontal pad. */
  ghost predicate Abutting(r: Renderer, ds: seq<Drawable>)
  {
    && (|ds| > 0 ==> ds[0].offsetX == HorizontalPad + Lead(ds[0]))
    && (forall i, j :: 0 <= i < |ds| && j == i + 1 && j < |ds| ==>
          ds[j].offsetX == ds[i].offsetX + Advance(r, ds[i]) + Lead(ds[j]))
  }

  /** A laid-out line: non-empty, at the horizontal pad, its drawables
      abutting, and every drawable but the first inside the width. */
  ghost predicate Placed(r: Renderer, l: Line)
  {
    && |l.drawables| > 0
    && l.offsetX == HorizontalPad
    && Abutting(r, l.drawables)
    && (forall i :: 0 < i < |l.drawables| ==> FitsAt(r, l.drawables[i]))
  }

  /** Lines stacked top to bottom: the first one pushed down by its own
      shift, every later one by its shift below the bottom of the one above. */
  ghost predicate Stacked(r: Renderer, ls: seq<Line>)
  {
    && (forall k :: 0 <= k < |ls| ==> Placed(r, ls[k]))
    && (|ls| > 0 ==> ls[0].offsetY == ShiftOf(ls[0].drawables))
    && (forall j, k :: 0 <= j < |ls| && k == j + 1 && k < |ls| ==>
          |ls[j].drawables| > 0 && ls[k].offsetY == Bottom(ls[j]) + ShiftOf(ls[k].drawables))
  }

  lemma {:induction false} PackedAbutting(r: Renderer, ds: seq<Drawable>)
    requires Packed(r, ds)
    ensures Abutting(r, ds)
    decreases |ds|
  {
    if |ds| > 0 {
      var init := ds[..|ds| - 1];
      PackedAbutting(r, init);
      if |init| > 0 {
        assert ds[|ds| - 1].offsetX == init[|init| - 1].offsetX + Advance(r, init[|init| - 1]) + Lead(ds[|ds| - 1]);
        assert ds[0] == init[0];
      }
      forall i, j | 0 <= i < |ds| && j == i + 1 && j < |ds|
        ensures ds[j].offsetX == ds[i].offsetX + Advance(r, ds[i]) + Lead(ds[j])
      {
        if j < |ds| - 1 {
          assert ds[i] == init[i] && ds[j] == init[j];
        }
      }
    }
  }

  lemma {:induction false} FitsEach(r: Renderer, ds: seq<Drawable>)
    requires Fits(r, ds)
    ensures forall i :: 0 < i < |ds| ==> FitsAt(r, ds[i])
    decreases |ds|
  {
    if |ds| > 1 {
      var init := ds[..|ds| - 1];
      FitsEach(r, init);
      forall i | 0 < i < |ds|
        ensures FitsAt(r, ds[i])
      {
        if i < |ds| - 1 {
          assert ds[i] == init[i];
        }
      }
    }
  }

  lemma GoodLinePlaced(r: Renderer, l: Line)
    requires GoodLine(r, l)
    ensures Placed(r, l)
  {
    PackedAbutting(r, l.drawables);
    FitsEach(r, l.drawables);
  }

  /** The finished lines of the loop invariant, read index by index; `y` is
      the bottom of the last band. */
  lemma {:induction false} DoneStacked(r: Renderer, ls: seq<Line>, y: real)
    requires Done(r, ls, y)
    ensures Stacked(r, ls)
    ensures ls == [] ==> y == 0.0
    ensures ls != [] ==> |ls[|ls| - 1].drawables| > 0 && y == Bottom(ls[|ls| - 1])
    decreases |ls|
  {
    if ls != [] {
      var init := ls[..|ls| - 1];
      var l := ls[|ls| - 1];
      DoneStacked(r, init, l.offsetY - ShiftOf(l.drawables));
      GoodLinePlaced(r, l);
      forall k | 0 <= k < |ls|
        ensures Placed(r, ls[k])
      {
        if k < |init| {
          assert ls[k] == init[k];
        }
      }
      if init != [] {
        assert ls[0] == init[0];
      }
      forall j, k | 0 <= j < |ls| && k == j + 1 && k < |ls|
        ensures |ls[j].drawables| > 0 && ls[k].offsetY == Bottom(ls[j]) + ShiftOf(ls[k].drawables)
      {
        if k < |init| {
          assert ls[j] == init[j] && ls[k] == init[k];
        } else {
          assert ls[j] == init[|init| - 1];
        }
      }
    }
  }

  /** Where the band of line k starts: zero, or the bottom of the line above. */
  function BandTop(ls: seq<Line>, k: nat): real
    requires k < |ls|
    requires forall j :: 0 <= j < k ==> |ls[j].drawables| > 0
  {
    if k == 0 then 0.0 else Bottom(ls[k - 1])
  }

  /** No drawable reaches above the band of its line: the line is pushed
      down far enough for the tallest centred image. */
  lemma WithinBand(r: Renderer, ls: seq<Line>, k: nat, i: nat)
    requires Stacked(r, ls) && k < |ls| && i < |ls[k].drawables|
    ensures forall j :: 0 <= j < k ==> |ls[j].drawables| > 0
    ensures BandTop(ls, k) <= ls[k].offsetY + ls[k].drawables[i].offsetY
  {
    assert forall j :: 0 <= j < k ==> Placed(r, ls[j]);
    if k > 0 {
      assert |ls[k - 1].drawables| > 0 && ls[k].offsetY == Bottom(ls[k - 1]) + ShiftOf(ls[k].drawables);
    }
  }

  /** Within a line the drawables move right, never left of the pad. */
  lemma {:induction false} LineOrder(r: Renderer, l: Line, i: nat, j: nat)
    requires Placed(r, l) && i <= j < |l.drawables|
    ensures HorizontalPad <= l.drawables[i].offsetX <= l.drawables[j].offsetX
    decreases j
  {
    var ds := l.drawables;
    if j > 0 {
      assert ds[j].offsetX == ds[j - 1].offsetX + Advance(r, ds[j - 1]) + Lead(ds[j]);
      assert Advance(r, ds[j - 1]) >= 0.0;
      if i < j {
        LineOrder(r, l, i, j - 1);
      } else {
        LineOrder(r, l, j - 1, j - 1);
      }
    }
  }

  /** A band never ends above its line. */
  lemma BottomBelow(l: Line)
    requires |l.drawables| > 0
    ensures l.offsetY <= Bottom(l)
  {
    assert l.drawables[0].Height() <= LineHeight(l);
  }

  /** Lines go down the message: their vertical offsets never decrease. */
  lemma {:induction false} LinesDescend(r: Renderer, ls: seq<Line>, j: nat, k: nat)
    requires Stacked(r, ls) && j <= k < |ls|
    ensures ls[j].offsetY <= ls[k].offsetY
    decreases k
  {
    if j < k {
      LinesDescend(r, ls, j, k - 1);
      assert |ls[k - 1].drawables| > 0 && ls[k].offsetY == Bottom(ls[k - 1]) + ShiftOf(ls[k].drawables);
      BottomBelow(ls[k - 1]);
    }
  }

  // ---------------------------------------------------------------------------
  // The header
  // ---------------------------------------------------------------------------

  /** The badge images that resolve, in order. */
  function BadgeImages(r: Renderer, badges: seq<BadgeRef>): seq<Image>
  {
    if badges == [] then []
    else
      (match r.badge(badges[0].id, badges[0].version)
       case Some(img) => [img]
       case None => [])
      + BadgeImages(r, badges[1..])
  }

  /** A run of badges, each centred on a band of height `h`. */
  ghost predicate BadgeRow(ds: seq<Drawable>, imgs: seq<Image>, h: real)
  {
    |ds| == |imgs| && forall i :: 0 <= i < |ds| ==> ds[i] == Badge(ds[i].offsetX, Align(h, imgs[i].height as real), imgs[i])
  }

  /** The first drawables of a message: its resolvable badges when badges
      are shown, then the user name and a colon in the author colour
      adjusted against the background. */
  ghost predicate HeaderRow(r: Renderer, msg: ChatMessage, ds: seq<Drawable>)
  {
    var imgs := if r.showBadges then BadgeImages(r, msg.badges) else [];
    var tag := msg.name + [Colon];
    var h := r.measure(tag, Bold).height;
    && |ds| == |imgs| + 1
    && BadgeRow(ds[..|imgs|], imgs, h)
    && ds[|imgs|] == User(ds[|imgs|].offsetX, 0.0, h, tag, Contrast(msg.color, r.bgColor))
  }

  /** Placing one resolvable badge keeps the invariant and shows nothing. */
  lemma BadgeStep(r: Renderer, h: real, st: State, img: Image, next: State)
    requires Core(r, st) && st.builder == [] && st.lines == []
    requires var align := Align(h, img.height as real);
             next == st.(shift := MaxShift(st.shift, align),
                         dl := st.dl + [Badge(st.x, align, img)],
                         x := st.x + img.width as real + BadgePad)
    ensures Core(r, next) && Laid(next) == Laid(st)
  {
    var d := Badge(st.x, Align(h, img.height as real), img);
    assert next.x == d.offsetX + Advance(r, d);
    AppendKeeps(r, st, d, [], next);
    assert Laid(st) + [] == Laid(st);
  }

  lemma SplitAfter(a: seq<Drawable>, d: Drawable, c: seq<Drawable>)
    requires |a| + 1 <= |c| && c[..|a| + 1] == a + [d]
    ensures c[..|a|] == a && c[|a|..] == [d] + c[|a| + 1..]
  {
    assert c[..|a|] == c[..|a| + 1][..|a|];
    assert c[|a|] == c[..|a| + 1][|a|];
  }

  /** Placing the badges keeps the invariant, shows no content and appends
      one badge drawable per resolvable badge. */
  lemma {:induction false} BadgesKeep(r: Renderer, h: real, st: State, badges: seq<BadgeRef>, st': State)
    requires Core(r, st) && st.builder == [] && st.lines == []
    requires st' == PlaceBadges(r, h, st, badges)
    ensures Core(r, st') && Laid(st') == Laid(st)
    ensures |st.dl| <= |st'.dl| && st'.dl[..|st.dl|] == st.dl
    ensures BadgeRow(st'.dl[|st.dl|..], BadgeImages(r, badges), h)
    decreases |badges|
  {
    if badges == [] {
      assert st'.dl[|st.dl|..] == [];
    } else {
      var b := badges[0];
      var rest := BadgeImages(r, badges[1..]);
      match r.badge(b.id, b.version)
      case None =>
        assert st' == PlaceBadges(r, h, st, badges[1..]);
        assert BadgeImages(r, badges) == [] + rest == rest;
        BadgesKeep(r, h, st, badges[1..], st');
      case Some(img) =>
        var align := Align(h, img.height as real);
        var d := Badge(st.x, align, img);
        var next := st.(shift := MaxShift(st.shift, align), dl := st.dl + [d], x := st.x + img.width as real + BadgePad);
        assert st' == PlaceBadges(r, h, next, badges[1..]);
        assert BadgeImages(r, badges) == [img] + rest;
        BadgeStep(r, h, st, img, next);
        BadgesKeep(r, h, next, badges[1..], st');
        SplitAfter(st.dl, d, st'.dl);
        BadgeRowCons(d, st'.dl[|st.dl| + 1..], img, rest, h);
    }
  }

  lemma BadgeRowCons(d: Drawable, ds: seq<Drawable>, img: Image, imgs: seq<Image>, h: real)
    requires BadgeRow(ds, imgs, h) && d == Badge(d.offsetX, Align(h, img.height as real), img)
    ensures BadgeRow([d] + ds, [img] + imgs, h)
  {
    forall i | 0 <= i < |ds| + 1
      ensures ([d] + ds)[i] == Badge(([d] + ds)[i].offsetX, Align(h, ([img] + imgs)[i].height as real), ([img] + imgs)[i])
    {
      if i > 0 {
        assert ([d] + ds)[i] == ds[i - 1] && ([img] + imgs)[i] == imgs[i - 1];
      }
    }
  }

  /** The header satisfies the invariant, shows no content yet, and is the
      badge row followed by the user tag. */
  lemma HeaderKeeps(r: Renderer, msg: ChatMessage)
    ensures Core(r, Header(r, msg)) && Seen(r, Header(r, msg)) == []
    ensures HeaderRow(r, msg, Header(r, msg).dl)
  {
    var tag := msg.name + [Colon];
    var size := r.measure(tag, Bold);
    var st0 := State(HorizontalPad, 0.0, 0.0, 0, [], [], []);
    assert Core(r, st0);
    assert Laid(st0) == [];
    var st1 := if r.showBadges then PlaceBadges(r, size.height, st0, msg.badges) else st0;
    var imgs := if r.showBadges then BadgeImages(r, msg.badges) else [];
    if r.showBadges {
      BadgesKeep(r, size.height, st0, msg.badges, st1);
      assert st1.dl == st1.dl[|st0.dl|..];
    }
    assert BadgeRow(st1.dl, imgs, size.height);
    var d := User(st1.x, 0.0, size.height, tag, Contrast(msg.color, r.bgColor));
    var h := Header(r, msg);
    assert h == st1.(dl := st1.dl + [d], shift := MaxShift(st1.shift, d.offsetY), x := d.offsetX + Advance(r, d), builder := []);
    AppendKeeps(r, st1, d, [], h);
    SeenNoText(r, h);
    assert h.dl[..|imgs|] == st1.dl;
  }

  // ---------------------------------------------------------------------------
  // After the last word
  // ---------------------------------------------------------------------------

  /** Closing the last line keeps everything seen, and the lines stack. */
  lemma FinishKeeps(r: Renderer, st: State, ls: seq<Line>)
    requires Core(r, st) && Broken(r, st) && Pending(st) && ls == Finish(r, st)
    ensures |ls| > 0 && Stacked(r, ls) && Breaks(r, ls)
    ensures Glyphs(Flatten(ls)) == Seen(r, st)
    ensures Front(st) <= ls[0].drawables
  {
    var s1 := FlushIfAny(r, st);
    FlushIfAnyKeeps(r, st);
    var s2 := NewLine(s1);
    NewLineKeeps(r, s1, s2);
    assert ls == s2.lines;
    SeenNoText(r, s2);
    assert Flatten(ls) + [] == Flatten(ls);
    PrefixTrans(Front(st), Front(s1), Front(s2));
    DoneStacked(r, ls, s2.y);
  }

  // ---------------------------------------------------------------------------
  // The whole message
  // ---------------------------------------------------------------------------

  /** The message's words resolved left to right, each at its character offset. */
  function MessageTokens(r: Renderer, msg: ChatMessage): Result<seq<Token>, LayoutError>
  {
    Tokens(ResolverOf(r, msg), MessageWords(r, msg), 0)
  }

  /** The word loop after the header fails exactly when some word fails to
      resolve, and otherwise folds the placement over the resolved words. */
  lemma RunFolds(r: Renderer, msg: ChatMessage)
    ensures Run(r, msg, Header(r, msg), MessageWords(r, msg)).Ok? <==> MessageTokens(r, msg).Ok?
    ensures MessageTokens(r, msg).Ok? ==>
              Run(r, msg, Header(r, msg), MessageWords(r, msg)).value
                == Fold(PlaceStep(r), Header(r, msg), MessageTokens(r, msg).value, Lengths(MessageWords(r, msg)))
  {
    var h := Header(r, msg);
    var words := MessageWords(r, msg);
    RunIsLoop(r, msg, h, words);
    PlaceStepAdvances(r);
    LoopIsFold(ResolverOf(r, msg), PlaceStep(r), h, words);
  }

  /** What the word loop leaves: the invariant, the content of every
      resolved word, and the header still at the front. */
  lemma RunKeeps(r: Renderer, msg: ChatMessage, ts: seq<Token>, st: State)
    requires MessageTokens(r, msg) == Ok(ts)
    requires st == Fold(PlaceStep(r), Header(r, msg), ts, Lengths(MessageWords(r, msg)))
    ensures Core(r, st) && Broken(r, st) && Pending(st)
    ensures Seen(r, st) == Expected(r, ts)
    ensures Header(r, msg).dl <= Front(st)
  {
    var h := Header(r, msg);
    HeaderKeeps(r, msg);
    assert Broken(r, h) by {
      assert h.lines == [] && h.builder == [];
    }
    TokensWordOk(r, msg, MessageWords(r, msg), 0);
    assert Front(h) == h.dl;
    PlaceStepGood(r);
    FoldKeeps(r, PlaceStep(r), h, ts, Lengths(MessageWords(r, msg)));
    assert [] + Expected(r, ts) == Expected(r, ts);
  }

  /** A word resolved as text is the word itself, so it holds no space. */
  lemma {:induction false} TokensWordOk(r: Renderer, msg: ChatMessage, words: seq<Str>, cursor: int)
    requires forall i :: 0 <= i < |words| ==> NoSpace(words[i])
    ensures Tokens(ResolverOf(r, msg), words, cursor).Ok? ==>
              forall i :: 0 <= i < |words| ==> WordOk(Tokens(ResolverOf(r, msg), words, cursor).value[i])
    decreases |words|
  {
    var out := Tokens(ResolverOf(r, msg), words, cursor);
    if words != [] && out.Ok? {
      var next := cursor + |words[0]| + 1;
      TokensWordOk(r, msg, words[1..], next);
      var t := Resolve(r, msg, words[0], cursor);
      assert ResolverOf(r, msg)(words[0], cursor) == t;
      assert t.value.Word? ==> t.value.w == words[0];
      forall i | 0 <= i < |words|
        ensures WordOk(out.value[i])
      {
        if i > 0 {
          assert out.value[i] == Tokens(ResolverOf(r, msg), words[1..], next).value[i - 1];
        }
      }
    }
  }

  /** A message laid out from resolved words. */
  lemma MessageOk(r: Renderer, msg: ChatMessage, frame: nat, ts: seq<Token>, m: DrawableMessage)
    requires MessageTokens(r, msg) == Ok(ts)
    requires MakeDrawableMessage(r, msg, frame) == Ok(m)
    ensures WellFormed(m) && Stacked(r, m.lines) && Breaks(r, m.lines)
    ensures Glyphs(Flatten(m.lines)) == Expected(r, ts)
    ensures Header(r, msg).dl <= m.lines[0].drawables
    ensures m.startFrame == frame && (m.live <==> msg.source == Some(ChatSource))
  {
    RunFolds(r, msg);
    var st := Run(r, msg, Header(r, msg), MessageWords(r, msg)).value;
    RunKeeps(r, msg, ts, st);
    assert m == DrawableMessage(Finish(r, st), frame, msg.source == Some(ChatSource));
    FinishKeeps(r, st, m.lines);
    PrefixTrans(Header(r, msg).dl, Front(st), m.lines[0].drawables);
    assert forall k :: 0 <= k < |m.lines| ==> Placed(r, m.lines[k]);
  }

  /** `MakeDrawableMessage` fails exactly when some word fails to resolve.
      Otherwise its lines are laid out and stacked, they show exactly the
      content of the resolved words in order, every line after the first
      starts with something that did not fit on the line before it, the
      first line starts with the header, and the message keeps its start frame and is live exactly
      when its source is "chat". */
  lemma MakeDrawableMessageCorrect(r: Renderer, msg: ChatMessage, frame: nat)
    ensures MakeDrawableMessage(r, msg, frame).Ok? <==> MessageTokens(r, msg).Ok?
    ensures MakeDrawableMessage(r, msg, frame).Ok? ==>
              var m := MakeDrawableMessage(r, msg, frame).value;
              && WellFormed(m)
              && Stacked(r, m.lines)
              && Breaks(r, m.lines)
              && Glyphs(Flatten(m.lines)) == Expected(r, MessageTokens(r, msg).value)
              && Header(r, msg).dl <= m.lines[0].drawables
              && m.startFrame == frame
              && (m.live <==> msg.source == Some(ChatSource))
  {
    RunFolds(r, msg);
    if MakeDrawableMessage(r, msg, frame).Ok? {
      MessageOk(r, msg, frame, MessageTokens(r, msg).value, MakeDrawableMessage(r, msg, frame).value);
    }
  }

  /** The first line of a laid-out message opens with its header row. */
  lemma FirstLineHeader(r: Renderer, msg: ChatMessage, frame: nat, m: DrawableMessage)
    requires MakeDrawableMessage(r, msg, frame) == Ok(m)
    ensures |m.lines| > 0 && |Header(r, msg).dl| <= |m.lines[0].drawables|
    ensures HeaderRow(r, msg, m.lines[0].drawables[..|Header(r, msg).dl|])
  {
    RunFolds(r, msg);
    MessageOk(r, msg, frame, MessageTokens(r, msg).value, m);
    HeaderKeeps(r, msg);
    PrefixSlice(Header(r, msg).dl, m.lines[0].drawables);
  }

  lemma PrefixSlice<T>(a: seq<T>, b: seq<T>)
    requires a <= b
    ensures |a| <= |b| && b[..|a|] == a
  {
  }

  // ---------------------------------------------------------------------------
  // Plain text
  // ---------------------------------------------------------------------------

  /** The renderer knows no emoji, FFZ, BTTV or native emote image, and the
      message carries no bits (or there is no cheer table). */
  ghost predicate NoImages(r: Renderer, msg: ChatMessage)
  {
    && (forall w :: r.emoji(w).None?)
    && (forall w :: r.ffz(w).None?)
    && (forall w :: r.bttv(w).None?)
    && (forall id :: r.nativeEmote(id).None?)
    && (msg.bits <= 0 || r.bits.None?)
  }

  function AsWords(ws: seq<Str>): (ts: seq<Token>)
    ensures |ts| == |ws|
  {
    if ws == [] then [] else [Word(ws[0])] + AsWords(ws[1..])
  }

  lemma {:induction false} PlainTokens(r: Renderer, msg: ChatMessage, words: seq<Str>, cursor: int)
    requires NoImages(r, msg)
    ensures Tokens(ResolverOf(r, msg), words, cursor) == Ok(AsWords(words))
    decreases |words|
  {
    if words != [] {
      var w := words[0];
      assert r.emoji(w).None? && r.ffz(w).None? && r.bttv(w).None?;
      assert EmoteFor(r, msg, w, cursor).None? by {
        match EmoteAt(msg.emotes, cursor)
        case Some(e) => assert r.nativeEmote(e.id).None?;
        case None =>
      }
      assert ResolverOf(r, msg)(w, cursor) == Ok(Word(w));
      PlainTokens(r, msg, words[1..], cursor + |w| + 1);
    }
  }

  lemma {:induction false} ExpectedWords(r: Renderer, ws: seq<Str>)
    ensures Expected(r, AsWords(ws)) == Chars(JoinWords(ws), r.chatColor)
    decreases |ws|
  {
    if ws != [] {
      ExpectedWords(r, ws[1..]);
      assert AsWords(ws)[0] == Word(ws[0]) && AsWords(ws)[1..] == AsWords(ws[1..]);
      CharsAppend(ws[0] + [Space], JoinWords(ws[1..]), r.chatColor);
    }
  }

  /** With nothing to resolve into an image, a message shows its words, each
      followed by one space, in the chat colour. */
  lemma PlainTextShown(r: Renderer, msg: ChatMessage, frame: nat)
    requires NoImages(r, msg)
    ensures MakeDrawableMessage(r, msg, frame).Ok?
    ensures Glyphs(Flatten(MakeDrawableMessage(r, msg, frame).value.lines))
              == Chars(JoinWords(MessageWords(r, msg)), r.chatColor)
  {
    PlainTokens(r, msg, MessageWords(r, msg), 0);
    MakeDrawableMessageCorrect(r, msg, frame);
    ExpectedWords(r, MessageWords(r, msg));
  }

  /** Round trip: a text of words separated by single spaces (no leading,
      trailing or doubled space), with no surrogate code units and nothing to
      resolve into an image, is shown exactly, followed by one space. */
  lemma PlainTextRoundTrip(r: Renderer, msg: ChatMessage, frame: nat, ws: seq<Str>)
    requires NoImages(r, msg)
    requires forall i :: 0 <= i < |ws| ==> |ws[i]| > 0 && NoSpace(ws[i])
    requires msg.text + [Space] == JoinWords(ws)
    requires forall i :: 0 <= i < |msg.text| ==> !IsSurrogate(msg.text[i])
    ensures MakeDrawableMessage(r, msg, frame).Ok?
    ensures Glyphs(Flatten(MakeDrawableMessage(r, msg, frame).value.lines))
              == Chars(msg.text + [Space], r.chatColor)
  {
    assert MessageWords(r, msg) == ws by {
      WordsSplit(msg.text, []);
      assert msg.text + [Space] + [] == JoinWords(ws);
      WordsOfJoinWords(ws);
    }
    PlainTextShown(r, msg, frame);
  }

  /** How a word resolves: the emoji, FFZ, BTTV and native-emote lookups in
      that order; then, only when the message carries bits and the channel
      has a cheer table, a cheer with a positive amount; otherwise text. */
  lemma ResolveOrder(r: Renderer, msg: ChatMessage, word: Str, cursor: int)
    ensures r.emoji(word).Some? ==>
              Resolve(r, msg, word, cursor) == Ok(Picture(r.emoji(word).value))
    ensures r.emoji(word).None? && r.ffz(word).Some? ==>
              Resolve(r, msg, word, cursor) == Ok(Picture(r.ffz(word).value))
    ensures r.emoji(word).None? && r.ffz(word).None? && r.bttv(word).Some? ==>
              Resolve(r, msg, word, cursor) == Ok(Picture(r.bttv(word).value))
    ensures EmoteFor(r, msg, word, cursor).None? <==>
              r.emoji(word).None? && r.ffz(word).None? && r.bttv(word).None? &&
              (EmoteAt(msg.emotes, cursor).None? || r.nativeEmote(EmoteAt(msg.emotes, cursor).value.id).None?)
    ensures EmoteFor(r, msg, word, cursor).None? && (msg.bits <= 0 || r.bits.None?) ==>
              Resolve(r, msg, word, cursor) == Ok(Word(word))
    ensures EmoteFor(r, msg, word, cursor).None? && msg.bits > 0 && r.bits.Some? ==>
              match CheerOf(r.bits.value, word, r.cheerImage)
              case Err(e) => Resolve(r, msg, word, cursor) == Err(CheerFailed(e))
              case Ok(c) =>
                if c.amount <= 0 then Resolve(r, msg, word, cursor) == Ok(Word(word))
                else if c.emote.None? then Resolve(r, msg, word, cursor) == Err(NullCheerImage)
                else Resolve(r, msg, word, cursor) == Ok(CheerTok(c.emote.value, c.amount, c.color))
  {
  }
}
