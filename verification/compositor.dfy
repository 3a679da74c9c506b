/** `ChatVideo`: which laid-out messages are on screen at each video frame,
    and the paint commands that draw one frame. Admission is a step function
    over (index of the next pending message, stack of admitted messages);
    drawing a frame produces a list of positioned paint commands. */
module Compositor {
  import opened Wrappers
  import opened Text
  import opened Colors
  import opened Drawables

  /** The settings of the video the compositor reads. */
  datatype VideoConfig = VideoConfig(
    width: int,
    height: int,
    bgColor: Color,
    vodChat: bool,
    lineSpacing: real)

  // ---------------------------------------------------------------------------
  // Admission
  // ---------------------------------------------------------------------------

  /** A message that may appear at all: one sent live, or any message when
      chat replayed from the VOD is wanted too. */
  predicate Shown(cfg: VideoConfig, m: DrawableMessage)
  {
    m.live || cfg.vodChat
  }

  /** `last_chat` and the `Stack<DrawableMessage>`; `stack[0]` is the top. */
  datatype Queue = Queue(next: nat, stack: seq<DrawableMessage>)

  /** The admission step at frame `i`: the next pending message is dropped
      when it may not appear, pushed when its start frame is strictly
      before `i`, and otherwise waits, holding back every later message. */
  function Admit(cfg: VideoConfig, msgs: seq<DrawableMessage>, q: Queue, i: int): (q': Queue)
    requires q.next <= |msgs|
    ensures q'.next <= |msgs|
    ensures q'.next == q.next || q'.next == q.next + 1
    ensures q'.next == q.next ==> q' == q
    ensures q'.stack == q.stack || (q'.next == q.next + 1 && q'.stack == [msgs[q.next]] + q.stack)
  {
    if q.next < |msgs| then
      var chat := msgs[q.next];
      if !chat.live && !cfg.vodChat then q.(next := q.next + 1)
      else if (chat.startFrame as int) < i then Queue(q.next + 1, [chat] + q.stack)
      else q
    else q
  }

  /** The three outcomes of one admission step, each with its exact condition. */
  lemma AdmitCases(cfg: VideoConfig, msgs: seq<DrawableMessage>, q: Queue, i: int)
    requires q.next <= |msgs|
    ensures var q' := Admit(cfg, msgs, q, i);
            && (q'.next == q.next + 1 && q'.stack == q.stack <==>
                  q.next < |msgs| && !Shown(cfg, msgs[q.next]))
            && (|q'.stack| == |q.stack| + 1 <==>
                  q.next < |msgs| && Shown(cfg, msgs[q.next]) && (msgs[q.next].startFrame as int) < i)
            && (q' == q <==>
                  q.next == |msgs| || (Shown(cfg, msgs[q.next]) && (msgs[q.next].startFrame as int) >= i))
  {
  }

  function Reverse<T>(s: seq<T>): (r: seq<T>)
    ensures |r| == |s|
  {
    if s == [] then [] else Reverse(s[1..]) + [s[0]]
  }

  predicate AllWellFormed(ms: seq<DrawableMessage>)
  {
    forall k :: 0 <= k < |ms| ==> WellFormed(ms[k])
  }

  /** The messages among `ms` that may appear, in order. */
  function Visible(cfg: VideoConfig, ms: seq<DrawableMessage>): seq<DrawableMessage>
  {
    if ms == [] then []
    else Visible(cfg, ms[..|ms| - 1]) + (if Shown(cfg, ms[|ms| - 1]) then [ms[|ms| - 1]] else [])
  }

  /** The stack read bottom to top is exactly the messages before `next`
      that may appear, in their original order. */
  ghost predicate Consistent(cfg: VideoConfig, msgs: seq<DrawableMessage>, q: Queue)
  {
    q.next <= |msgs| && Reverse(q.stack) == Visible(cfg, msgs[..q.next])
  }

  lemma AdmitKeeps(cfg: VideoConfig, msgs: seq<DrawableMessage>, q: Queue, i: int)
    requires Consistent(cfg, msgs, q)
    ensures Consistent(cfg, msgs, Admit(cfg, msgs, q, i))
  {
    var q' := Admit(cfg, msgs, q, i);
    if q'.next == q.next + 1 {
      var m := msgs[q.next];
      assert msgs[..q'.next][..q.next] == msgs[..q.next];
      assert Visible(cfg, msgs[..q'.next]) == Visible(cfg, msgs[..q.next]) + (if Shown(cfg, m) then [m] else []);
      if q'.stack != q.stack {
        assert ([m] + q.stack)[1..] == q.stack;
      }
    }
  }

  /** The queue when frame `start + n - 1` is drawn: `n` admission steps, at
      frames `start` to `start + n - 1`. At most one message leaves the
      pending list per frame. */
  function Schedule(cfg: VideoConfig, msgs: seq<DrawableMessage>, start: int, n: nat): (q: Queue)
    ensures q.next <= |msgs| && q.next <= n
    ensures AllWellFormed(msgs) ==> AllWellFormed(q.stack)
  {
    if n == 0 then Queue(0, [])
    else Admit(cfg, msgs, Schedule(cfg, msgs, start, n - 1), start + n - 1)
  }

  /** At every frame the stack, bottom to top, is the order-preserving
      selection of the messages that may appear among those already taken. */
  lemma {:induction false} ScheduleConsistent(cfg: VideoConfig, msgs: seq<DrawableMessage>, start: int, n: nat)
    ensures Consistent(cfg, msgs, Schedule(cfg, msgs, start, n))
  {
    if n == 0 {
      assert msgs[..0] == [];
    } else {
      ScheduleConsistent(cfg, msgs, start, n - 1);
      AdmitKeeps(cfg, msgs, Schedule(cfg, msgs, start, n - 1), start + n - 1);
    }
  }

  /** No message is on screen at or before its start frame: when frame
      `start + n - 1` is drawn, every stacked message started earlier. */
  lemma {:induction false} ShownAfterStart(cfg: VideoConfig, msgs: seq<DrawableMessage>, start: int, n: nat)
    ensures forall k :: 0 <= k < |Schedule(cfg, msgs, start, n).stack| ==>
              (Schedule(cfg, msgs, start, n).stack[k].startFrame as int) < start + n
    ensures n > 0 ==> forall k :: 0 <= k < |Schedule(cfg, msgs, start, n).stack| ==>
              (Schedule(cfg, msgs, start, n).stack[k].startFrame as int) < start + n - 1
  {
    if n > 0 {
      var q := Schedule(cfg, msgs, start, n - 1);
      ShownAfterStart(cfg, msgs, start, n - 1);
      var q' := Schedule(cfg, msgs, start, n);
      AdmitCases(cfg, msgs, q, start + n - 1);
      forall k | 0 <= k < |q'.stack|
        ensures (q'.stack[k].startFrame as int) < start + n - 1
      {
        if q'.stack != q.stack && k > 0 {
          assert q'.stack[k] == q.stack[k - 1];
        }
      }
    }
  }

  /** Messages that may all appear and all start before the first frame
      drain one per frame. */
  lemma {:induction false} Drain(cfg: VideoConfig, msgs: seq<DrawableMessage>, start: int, n: nat)
    requires forall k :: 0 <= k < |msgs| ==> Shown(cfg, msgs[k]) && (msgs[k].startFrame as int) < start
    ensures Schedule(cfg, msgs, start, n).next == if n <= |msgs| then n else |msgs|
  {
    if n > 0 {
      Drain(cfg, msgs, start, n - 1);
      AdmitCases(cfg, msgs, Schedule(cfg, msgs, start, n - 1), start + n - 1);
    }
  }

  // ---------------------------------------------------------------------------
  // One frame
  // ---------------------------------------------------------------------------

  /** One GDI call: clear, draw a string, draw an image showing one of its
      frames, or fill a rectangle. */
  datatype Paint =
    | Clear(color: Color)
    | DrawString(x: real, y: real, text: Str, style: FontStyle, color: Color)
    | DrawImage(x: real, y: real, image: Image, frame: nat)
    | FillRect(fill: Color, left: real, top: real, width: real, height: real)

  /** The height a message claims above the one below it: its last line's
      offset and height plus the line spacing. */
  function Extent(cfg: VideoConfig, m: DrawableMessage): real
    requires WellFormed(m)
  {
    var last := m.lines[|m.lines| - 1];
    last.offsetY + LineHeight(last) + cfg.lineSpacing
  }

  /** The running total of the selection test: only each message's last
      line height and the line spacing count. */
  function Used(cfg: VideoConfig, ms: seq<DrawableMessage>): real
    requires AllWellFormed(ms)
  {
    if ms == [] then 0.0
    else LineHeight(ms[0].lines[|ms[0].lines| - 1]) + cfg.lineSpacing + Used(cfg, ms[1..])
  }

  /** The `TakeWhile` of the selection: a message is taken when the total
      before it is below the limit. */
  function TakeFits(cfg: VideoConfig, ms: seq<DrawableMessage>, used: real, limit: real): (sel: seq<DrawableMessage>)
    requires AllWellFormed(ms)
    ensures |sel| <= |ms| && AllWellFormed(sel)
  {
    if ms == [] || !(used < limit) then []
    else
      var h := LineHeight(ms[0].lines[|ms[0].lines| - 1]) + cfg.lineSpacing;
      [ms[0]] + TakeFits(cfg, ms[1..], used + h, limit)
  }

  function Limit(cfg: VideoConfig): real
  {
    cfg.height as real - VerticalPad * 2.0
  }

  /** The messages drawn, newest first. */
  function Select(cfg: VideoConfig, stack: seq<DrawableMessage>): (sel: seq<DrawableMessage>)
    requires AllWellFormed(stack)
    ensures |sel| <= |stack| && AllWellFormed(sel)
  {
    TakeFits(cfg, stack, 0.0, Limit(cfg))
  }

  /** The running total over a non-empty prefix starts with its first message. */
  lemma UsedCons(cfg: VideoConfig, ms: seq<DrawableMessage>, k: nat)
    requires AllWellFormed(ms) && 0 < k <= |ms|
    ensures AllWellFormed(ms[..k]) && AllWellFormed(ms[1..][..k - 1])
    ensures Used(cfg, ms[..k]) == LineHeight(ms[0].lines[|ms[0].lines| - 1]) + cfg.lineSpacing + Used(cfg, ms[1..][..k - 1])
  {
    assert ms[..k][1..] == ms[1..][..k - 1];
    assert ms[..k][0] == ms[0];
  }

  /** The selection is a prefix of its input. */
  lemma {:induction false} TakeFitsPrefix(cfg: VideoConfig, ms: seq<DrawableMessage>, used: real, limit: real)
    requires AllWellFormed(ms)
    ensures TakeFits(cfg, ms, used, limit) == ms[..|TakeFits(cfg, ms, used, limit)|]
    decreases |ms|
  {
    if ms != [] && used < limit {
      var h := LineHeight(ms[0].lines[|ms[0].lines| - 1]) + cfg.lineSpacing;
      var rest := TakeFits(cfg, ms[1..], used + h, limit);
      TakeFitsPrefix(cfg, ms[1..], used + h, limit);
      assert ms[1..][..|rest|] == ms[1..|rest| + 1];
    }
  }

  lemma {:induction false} TakeFitsSpec(cfg: VideoConfig, ms: seq<DrawableMessage>, used: real, limit: real)
    requires AllWellFormed(ms)
    ensures var n := |TakeFits(cfg, ms, used, limit)|;
            && (forall k :: 0 <= k < n ==> used + Used(cfg, ms[..k]) < limit)
            && (n < |ms| ==> used + Used(cfg, ms[..n]) >= limit)
    decreases |ms|
  {
    assert ms[..0] == [];
    if ms != [] && used < limit {
      var h := LineHeight(ms[0].lines[|ms[0].lines| - 1]) + cfg.lineSpacing;
      var n' := |TakeFits(cfg, ms[1..], used + h, limit)|;
      TakeFitsSpec(cfg, ms[1..], used + h, limit);
      assert |TakeFits(cfg, ms, used, limit)| == n' + 1;
      forall k | 0 < k < n' + 1
        ensures used + Used(cfg, ms[..k]) < limit
      {
        UsedCons(cfg, ms, k);
      }
      if n' + 1 < |ms| {
        UsedCons(cfg, ms, n' + 1);
      }
    }
  }

  /** The selection takes the newest messages while the total before each
      is below `Height - 2 * VerticalPad`, and stops at the first one whose
      total reaches it. */
  lemma SelectSpec(cfg: VideoConfig, stack: seq<DrawableMessage>)
    requires AllWellFormed(stack)
    ensures var n := |Select(cfg, stack)|;
            && Select(cfg, stack) == stack[..n]
            && (forall k :: 0 <= k < n ==> Used(cfg, stack[..k]) < Limit(cfg))
            && (n < |stack| ==> Used(cfg, stack[..n]) >= Limit(cfg))
  {
    TakeFitsPrefix(cfg, stack, 0.0, Limit(cfg));
    TakeFitsSpec(cfg, stack, 0.0, Limit(cfg));
  }

  /** The newest message is always drawn when the video is taller than the
      two vertical pads. */
  lemma NewestDrawn(cfg: VideoConfig, stack: seq<DrawableMessage>)
    requires AllWellFormed(stack) && |stack| > 0 && (cfg.height as real) > VerticalPad * 2.0
    ensures |Select(cfg, stack)| > 0 && Select(cfg, stack)[0] == stack[0]
  {
    SelectSpec(cfg, stack);
    assert stack[..0] == [];
  }

  /** The paint for one drawable of a line whose message is anchored at `y0`:
      positions are relative to the line, the line to the message; an
      emote shows the sub-frame `SetFrame` selects, a badge its first frame. */
  function PaintOf(l: Line, d: Drawable, y0: real, frame: nat): (p: Paint)
    ensures p.DrawString? || p.DrawImage?
    ensures p.x == l.offsetX + d.offsetX && p.y == l.offsetY + d.offsetY + y0
  {
    var x := l.offsetX + d.offsetX;
    var y := l.offsetY + d.offsetY + y0;
    match d
    case User(_, _, _, name, color) => DrawString(x, y, name, Bold, color)
    case Text(_, _, _, m, color) => DrawString(x, y, m, Regular, color)
    case Badge(_, _, img) => DrawImage(x, y, img, 0)
    case Emote(_, _, img) => DrawImage(x, y, img, SetFrame(img, 0, frame))
  }

  function PaintLine(l: Line, y0: real, frame: nat): (ps: seq<Paint>)
    ensures |ps| == |l.drawables|
  {
    seq(|l.drawables|, i requires 0 <= i < |l.drawables| => PaintOf(l, l.drawables[i], y0, frame))
  }

  function PaintLines(ls: seq<Line>, y0: real, frame: nat): seq<Paint>
  {
    if ls == [] then [] else PaintLine(ls[0], y0, frame) + PaintLines(ls[1..], y0, frame)
  }

  /** The selected messages, newest first, each anchored its extent above
      the anchor of the one below it. */
  function PaintMessages(cfg: VideoConfig, ms: seq<DrawableMessage>, anchor: real, frame: nat): seq<Paint>
    requires AllWellFormed(ms)
  {
    if ms == [] then []
    else
      var y0 := anchor - Extent(cfg, ms[0]);
      PaintLines(ms[0].lines, y0, frame) + PaintMessages(cfg, ms[1..], y0, frame)
  }

  /** `DrawFrame`: clear to the background, paint the selected messages from
      the bottom pad upwards, then repaint the top pad strip. */
  function DrawFrame(cfg: VideoConfig, stack: seq<DrawableMessage>, frame: nat): seq<Paint>
    requires AllWellFormed(stack)
  {
    [Clear(cfg.bgColor)]
      + PaintMessages(cfg, Select(cfg, stack), cfg.height as real - VerticalPad, frame)
      + [FillRect(cfg.bgColor, 0.0, 0.0, cfg.width as real, VerticalPad)]
  }

  /** The total extent of a run of messages. */
  function Extents(cfg: VideoConfig, ms: seq<DrawableMessage>): real
    requires AllWellFormed(ms)
  {
    if ms == [] then 0.0 else Extent(cfg, ms[0]) + Extents(cfg, ms[1..])
  }

  function Concat<T>(ss: seq<seq<T>>): seq<T>
  {
    if ss == [] then [] else ss[0] + Concat(ss[1..])
  }

  /** Where message k of a selection is anchored: below the anchor by the
      extents of messages 0 to k. */
  function Anchor(cfg: VideoConfig, ms: seq<DrawableMessage>, anchor: real, k: nat): real
    requires AllWellFormed(ms) && k < |ms|
  {
    anchor - Extents(cfg, ms[..k + 1])
  }

  /** The anchors of a selection, from the anchor of its first message on. */
  lemma AnchorCons(cfg: VideoConfig, ms: seq<DrawableMessage>, anchor: real, k: nat)
    requires AllWellFormed(ms) && 0 < k < |ms|
    ensures AllWellFormed(ms[1..])
    ensures Anchor(cfg, ms, anchor, k) == Anchor(cfg, ms[1..], anchor - Extent(cfg, ms[0]), k - 1)
  {
    assert ms[..k + 1][1..] == ms[1..][..k];
    assert ms[..k + 1][0] == ms[0];
  }

  lemma AnchorFirst(cfg: VideoConfig, ms: seq<DrawableMessage>, anchor: real)
    requires AllWellFormed(ms) && 0 < |ms|
    ensures Anchor(cfg, ms, anchor, 0) == anchor - Extent(cfg, ms[0])
  {
    assert ms[..1][1..] == [];
    assert ms[..1][0] == ms[0];
    assert Extents(cfg, ms[..1]) == Extent(cfg, ms[0]) + Extents(cfg, ms[..1][1..]);
  }

  /** The paint of each selected message, newest first. */
  function Layers(cfg: VideoConfig, ms: seq<DrawableMessage>, anchor: real, frame: nat): (ls: seq<seq<Paint>>)
    requires AllWellFormed(ms)
    ensures |ls| == |ms|
  {
    if ms == [] then []
    else
      var y0 := anchor - Extent(cfg, ms[0]);
      [PaintLines(ms[0].lines, y0, frame)] + Layers(cfg, ms[1..], y0, frame)
  }

  /** Message k of a selection is painted at its anchor: the extents of
      messages 0 to k above the bottom anchor. */
  lemma {:induction false} LayerAt(cfg: VideoConfig, ms: seq<DrawableMessage>, anchor: real, frame: nat, k: nat)
    requires AllWellFormed(ms) && k < |ms|
    ensures Layers(cfg, ms, anchor, frame)[k] == PaintLines(ms[k].lines, Anchor(cfg, ms, anchor, k), frame)
    decreases k
  {
    if k == 0 {
      AnchorFirst(cfg, ms, anchor);
    } else {
      var y0 := anchor - Extent(cfg, ms[0]);
      var rest := Layers(cfg, ms[1..], y0, frame);
      assert Layers(cfg, ms, anchor, frame) == [PaintLines(ms[0].lines, y0, frame)] + rest;
      assert Layers(cfg, ms, anchor, frame)[k] == rest[k - 1];
      LayerAt(cfg, ms[1..], y0, frame, k - 1);
      assert ms[1..][k - 1] == ms[k];
      AnchorCons(cfg, ms, anchor, k);
      assert Layers(cfg, ms, anchor, frame)[k] == PaintLines(ms[k].lines, Anchor(cfg, ms, anchor, k), frame);
    }
  }

  /** Painting the messages is painting each one's layer, in order. */
  lemma {:induction false} PaintMessagesLayers(cfg: VideoConfig, ms: seq<DrawableMessage>, anchor: real, frame: nat)
    requires AllWellFormed(ms)
    ensures PaintMessages(cfg, ms, anchor, frame) == Concat(Layers(cfg, ms, anchor, frame))
    decreases |ms|
  {
    if ms != [] {
      var y0 := anchor - Extent(cfg, ms[0]);
      PaintMessagesLayers(cfg, ms[1..], y0, frame);
      assert ([PaintLines(ms[0].lines, y0, frame)] + Layers(cfg, ms[1..], y0, frame))[1..] == Layers(cfg, ms[1..], y0, frame);
    }
  }

  /** A frame clears to the background, paints the selected messages newest
      first, each at its anchor counted up from `Height - VerticalPad`, and
      ends by filling the top pad strip with the background. */
  lemma DrawFrameShape(cfg: VideoConfig, stack: seq<DrawableMessage>, frame: nat)
    requires AllWellFormed(stack)
    ensures var ps := DrawFrame(cfg, stack, frame);
            && |ps| >= 2
            && ps[0] == Clear(cfg.bgColor)
            && ps[|ps| - 1] == FillRect(cfg.bgColor, 0.0, 0.0, cfg.width as real, VerticalPad)
            && ps[1..|ps| - 1] == Concat(Layers(cfg, Select(cfg, stack), cfg.height as real - VerticalPad, frame))
  {
    var body := PaintMessages(cfg, Select(cfg, stack), cfg.height as real - VerticalPad, frame);
    PaintMessagesLayers(cfg, Select(cfg, stack), cfg.height as real - VerticalPad, frame);
    var ps := DrawFrame(cfg, stack, frame);
    assert ps == [Clear(cfg.bgColor)] + body + [FillRect(cfg.bgColor, 0.0, 0.0, cfg.width as real, VerticalPad)];
    assert ps[1..|ps| - 1] == body;
  }

  /** An animated emote repeats every `frameCount` frames, and a still one
      never changes. */
  lemma EmoteRepeats(l: Line, d: Drawable, y0: real, frame: nat)
    requires d.Emote?
    ensures d.image.frameCount > 1 ==>
              PaintOf(l, d, y0, frame + d.image.frameCount) == PaintOf(l, d, y0, frame)
    ensures d.image.frameCount <= 1 ==> PaintOf(l, d, y0, frame) == PaintOf(l, d, y0, 0)
  {
    if d.image.frameCount > 1 {
      SetFrameCycles(d.image, 0, frame);
    }
  }

  // ---------------------------------------------------------------------------
  // The frame loop
  // ---------------------------------------------------------------------------

  /** `frames` holds the frames `start` to `start + |frames| - 1`, each drawn
      after its admission step. */
  ghost predicate Drawn(cfg: VideoConfig, msgs: seq<DrawableMessage>, start: nat, frames: seq<seq<Paint>>)
    requires AllWellFormed(msgs)
  {
    forall j :: 0 <= j < |frames| ==>
      frames[j] == DrawFrame(cfg, Schedule(cfg, msgs, start, j + 1).stack, start + j)
  }

  lemma ScheduleStep(cfg: VideoConfig, msgs: seq<DrawableMessage>, start: int, n: nat, q: Queue, q': Queue)
    requires q == Schedule(cfg, msgs, start, n)
    requires q' == Admit(cfg, msgs, q, start + n)
    ensures q' == Schedule(cfg, msgs, start, n + 1)
  {
  }

  lemma DrawnSnoc(cfg: VideoConfig, msgs: seq<DrawableMessage>, start: nat, frames: seq<seq<Paint>>, q: Queue, frames': seq<seq<Paint>>)
    requires AllWellFormed(msgs) && Drawn(cfg, msgs, start, frames)
    requires q == Schedule(cfg, msgs, start, |frames| + 1)
    requires AllWellFormed(q.stack) && frames' == frames + [DrawFrame(cfg, q.stack, start + |frames|)]
    ensures Drawn(cfg, msgs, start, frames')
  {
    forall j | 0 <= j < |frames'|
      ensures frames'[j] == DrawFrame(cfg, Schedule(cfg, msgs, start, j + 1).stack, start + j)
    {
      if j < |frames| {
        assert frames'[j] == frames[j];
      } else {
        assert frames'[j] == DrawFrame(cfg, q.stack, start + |frames|);
      }
    }
  }

  /** One iteration of the frame loop after the cancellation test: admit,
      then draw the frame. */
  method NextFrame(cfg: VideoConfig, msgs: seq<DrawableMessage>, start: nat, q: Queue, frames: seq<seq<Paint>>)
    returns (q': Queue, frames': seq<seq<Paint>>)
    requires AllWellFormed(msgs)
    requires q == Schedule(cfg, msgs, start, |frames|) && Drawn(cfg, msgs, start, frames)
    ensures |frames'| == |frames| + 1
    ensures q' == Schedule(cfg, msgs, start, |frames'|) && Drawn(cfg, msgs, start, frames')
  {
    q' := Admit(cfg, msgs, q, start + |frames|);
    ScheduleStep(cfg, msgs, start, |frames|, q, q');
    frames' := frames + [DrawFrame(cfg, q'.stack, start + |frames|)];
    DrawnSnoc(cfg, msgs, start, frames, q', frames');
  }

  /** `WriteVideoFrames`: frames `startFrame` to `endFrame`, in order, each
      drawn after that frame's admission step. `cancelled` is the
      cancellation token as seen at the top of each iteration. */
  method WriteVideoFrames(cfg: VideoConfig, msgs: seq<DrawableMessage>, startFrame: nat, endFrame: int, cancelled: int -> bool)
    returns (ok: bool, frames: seq<seq<Paint>>)
    requires AllWellFormed(msgs)
    ensures Drawn(cfg, msgs, startFrame, frames)
    ensures ok <==> forall i :: startFrame <= i <= endFrame ==> !cancelled(i)
    ensures ok ==> |frames| == if endFrame < startFrame then 0 else endFrame - startFrame + 1
    ensures !ok ==> startFrame + |frames| <= endFrame && cancelled(startFrame + |frames|)
    ensures forall i :: startFrame <= i < startFrame + |frames| ==> !cancelled(i)
  {
    var q := Queue(0, []);
    frames := [];
    var i: int := startFrame;
    ghost var n: nat := 0;
    while i <= endFrame
      invariant startFrame <= i && (endFrame >= startFrame ==> i <= endFrame + 1)
      invariant endFrame < startFrame ==> i == startFrame
      invariant n == i - startFrame && |frames| == n
      invariant q == Schedule(cfg, msgs, startFrame, n)
      invariant Drawn(cfg, msgs, startFrame, frames)
      invariant forall j :: startFrame <= j < i ==> !cancelled(j)
    {
      if cancelled(i) {
        return false, frames;
      }
      q, frames := NextFrame(cfg, msgs, startFrame, q, frames);
      i := i + 1;
      n := n + 1;
    }
    ok := true;
  }

  // ---------------------------------------------------------------------------
  // The video ID
  // ---------------------------------------------------------------------------

  /** `vm.URL?.Split('/').LastOrDefault() ?? vm.URL ?? ""`: the text after the
      last slash of the URL, the empty string when there is no URL. */
  function VideoId(url: Option<Str>): (id: Str)
    ensures url.None? ==> id == []
    ensures url.Some? ==> |id| <= |url.value| && id == url.value[|url.value| - |id|..]
    ensures forall i :: 0 <= i < |id| ==> id[i] != Slash
  {
    match url
    case None => []
    case Some(u) => AfterLastSlash(u)
  }

  /** The ID is the whole URL exactly when it has no slash, empty when it
      ends with one, and otherwise preceded by a slash. */
  lemma VideoIdCases(u: Str)
    ensures (forall i :: 0 <= i < |u| ==> u[i] != Slash) <==> VideoId(Some(u)) == u
    ensures |u| > 0 && u[|u| - 1] == Slash ==> VideoId(Some(u)) == []
    ensures |VideoId(Some(u))| < |u| ==> u[|u| - |VideoId(Some(u))| - 1] == Slash
  {
  }

  /** Taking the ID of an ID changes nothing. */
  lemma VideoIdIdempotent(u: Str)
    ensures VideoId(Some(VideoId(Some(u)))) == VideoId(Some(u))
  {
    var id := VideoId(Some(u));
    VideoIdCases(id);
  }
}
