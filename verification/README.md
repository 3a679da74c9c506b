# TwitchChatVideo chat renderer, modelled in Dafny

TwitchChatVideo turns the chat log of a Twitch VOD into a video of the chat.
Each chat message is first laid out by `ChatHandler.MakeDrawableMessage`.
The result is a `DrawableMessage`: lines of positioned drawables (badges, the
user tag, text runs and emotes), a start frame, and whether the message was
sent live. `ChatVideo.WriteVideoFrames` then walks the frames of the video.
At each frame it admits at most one message onto a stack. `DrawFrame` paints
the newest messages that fit, bottom up. Cheer words ("cheer100") become an
image and an amount label. The table behind them is built by the `Bits`
constructor and queried by `Bits.GetCheer`. Author-name colours are adjusted
against the background by `Extensions.Contrast`.

The project is a functional model of that core:

- `wrappers.dfy`: `Option` and `Result`.
- `text.dfy` (module `Text`): .NET strings as UTF-16 code units. It holds the
  space split, decimal printing and parsing, ASCII lower-casing and "text
  after the last slash".
- `colors.dfy` (module `Colors`): ARGB colours and `Contrast`.
- `drawables.dfy` (module `Drawables`): the renderer constants, `Drawable`,
  `Line`, `DrawableMessage`, a line's height, and `Emote.SetFrame`.
- `bits.dfy` (module `Bits`): the cheer table, the cheer regex, and `GetCheer`
  with its image cache.
- `layout.dfy` (module `Layout`): `MakeDrawableMessage` as a left fold over
  the message's words. Text measurement and every image lookup are oracle
  fields of a `Renderer` value.
- `layout_facts.dfy` (modules `LayoutFacts`, `LayoutSteps`): the layout
  invariant and the proofs that every step of the fold keeps it.
- `layout_theorems.dfy` (module `LayoutTheorems`): what a laid-out message
  looks like and what it shows.
- `compositor.dfy` (module `Compositor`): frame admission, selection and
  placement in `DrawFrame`, `WriteVideoFrames` with cancellation, and the
  video ID.

Coordinates are real numbers. A frame is modelled as the list of paint
commands (`Clear`, `DrawString`, `DrawImage`, `FillRect`) that `DrawFrame`
issues.

Two pieces of the code have no effect, and the model leaves them out:

- The emote offsets bumped inside the surrogate-pair callback
  (`ChatHandler.cs:204`) belong to value-type structs copied out of the
  list, so the bump has no effect. The model does not shift any offset.
- The per-author colour memo (`ChatHandler.cs:241-253`) is never reached.
  `ChatMessage.Color` is a non-nullable `Color` that already substitutes a
  random colour when the JSON has none, so `color == null` is always false.
  The author colour is therefore an input.

The model returns each exception the core raises on its own data as an
error value:

- `DuplicateTier`: the `Bits` constructor adds a MinBits that one action
  already has (`Bits.cs:35`).
- `DuplicatePrefix`: two actions share a lower-cased prefix (`Bits.cs:40`).
- `AmountOverflow`: `int.Parse` of a digit run above Int32.MaxValue
  (`Bits.cs:63`).
- `MissingTier`: the tier indexer on an absent key, such as key 0 when
  every tier is above the amount (`Bits.cs:76`).
- `NullCheerImage`: a positive cheer whose image download gave nothing is
  dereferenced (`ChatHandler.cs:320`).

Null inputs and exceptions thrown inside the downloads are listed under
"Left out".

`Contrast` reduces each channel modulo 255, the channel maximum, so 255
maps to 128 and 127 maps to 0.

## Model

| member | source | states |
|---|---|---|
| Colors.Contrast | TwitchChatVideo/Extensions.cs:19-31 | The colour is replaced exactly when all three channels are close to the background's, i.e. the byte-wrapped difference is below 128. The replacement is opaque, with each channel `(x + 128) % 255`, at most 254. Otherwise the colour is returned as it is. |
| Colors.WrappedDiffIsDistance | TwitchChatVideo/Extensions.cs:21-23 | The byte cast of a channel difference is the unique `k` in 0..255 with `y + k ≡ x (mod 256)`. |
| Colors.ShiftValues | TwitchChatVideo/Extensions.cs:27 | `(x + 128) % 255` is `x + 128` up to 126, `x - 127` from 127 to 254, and 128 for 255. |
| Colors.SameAsBackgroundIsMovedAway | TwitchChatVideo/Extensions.cs:21-28 | A name colour equal to the background is always replaced. No channel of the replacement is within the "close" range of the original. |
| Colors.GreyOnBlackBecomesBlack | TwitchChatVideo/Extensions.cs:25-27 | Grey (127,127,127) on black is replaced by black, the background colour itself. |
| Drawables.MaxHeight | TwitchChatVideo/ChatHandler.cs:41 | No drawable of a line is taller than the line's height. |
| Drawables.MaxHeightAttained | TwitchChatVideo/ChatHandler.cs:41 | A line's height is the height of one of its drawables. |
| Drawables.ShiftOf | TwitchChatVideo/ChatHandler.cs:297-301 | The line shift is never negative. It is at least the upward offset of every drawable, and is either 0 or one of those offsets. |
| Drawables.SetFrame | TwitchChatVideo/ChatHandler.cs:89-95 | An animated image selects a frame below its frame count. A still image keeps its active frame. |
| Drawables.SetFrameCycles | TwitchChatVideo/ChatHandler.cs:93 | An animated emote shows sub-frame 0 at output frame 0. One output frame later it shows the next sub-frame modulo its frame count. A whole cycle later it shows the same sub-frame. |
| Text.ToLower | TwitchChatVideo/TwitchObjects/Bits.cs:55 | Lower-casing keeps the length and folds each code unit separately. |
| Text.Words | TwitchChatVideo/ChatHandler.cs:206 | Splitting on spaces and dropping empty entries yields only non-empty, space-free words. |
| Text.WordsOfJoinWords | TwitchChatVideo/ChatHandler.cs:206 | Splitting words joined by single spaces returns exactly those words. |
| Text.WordsSplit | TwitchChatVideo/ChatHandler.cs:206 | Cutting a text at one space cuts its word list at the same place: the words of `a + " " + b` are the words of `a` followed by the words of `b`. |
| Text.WordsOfWord | TwitchChatVideo/ChatHandler.cs:206 | A non-empty text without spaces is a single word. |
| Text.NatToStr | TwitchChatVideo/ChatHandler.cs:334 | An amount prints as a non-empty run of decimal digits, with no leading zero when positive. |
| Text.DecimalValueOfNatToStr | TwitchChatVideo/TwitchObjects/Bits.cs:63 | Parsing a printed amount gives the amount back. |
| Text.PrintParsedDigits | TwitchChatVideo/TwitchObjects/Bits.cs:63 | The label printed for a parsed digit run is the run without its leading zeros, or "0" when the run is all zeros. |
| Text.AfterLastSlash | TwitchChatVideo/ChatVideo.cs:38 | The result is a suffix of the text that contains no '/'. When it is shorter than the text, a '/' precedes it. |
| Bits.BuildTiers | TwitchChatVideo/TwitchObjects/Bits.cs:30-37 | Succeeds exactly when the cheerable tiers have distinct MinBits. It then keeps exactly those tiers in order; otherwise it fails with a duplicate key. |
| Bits.BuildTable | TwitchChatVideo/TwitchObjects/Bits.cs:23-44 | Succeeds exactly when each action's cheerable tiers have distinct keys and no two registered actions share a lower-cased prefix. The table maps exactly the registered lower-cased prefixes to their cheerable tiers. |
| Bits.MatchesAtIff | TwitchChatVideo/TwitchObjects/Bits.cs:48 | `([A-Za-z]+)(\d+)` matches at a position exactly when a letter run starting there is followed by a digit. The letter group then ends where the letters end. |
| Bits.FirstMatch | TwitchChatVideo/TwitchObjects/Bits.cs:48 | Finds the leftmost matching position, or reports that none exists. |
| Bits.CheerToken | TwitchChatVideo/TwitchObjects/Bits.cs:48-55 | A word has a cheer token exactly when the regex matches somewhere. Both groups are then non-empty, and the second is all digits. |
| Bits.CheerTokenGroups | TwitchChatVideo/TwitchObjects/Bits.cs:48-55 | The groups come from the leftmost match. The first is the whole letter run starting there, lower-cased. The second is the whole digit run after it. |
| Bits.ParseInt32 | TwitchChatVideo/TwitchObjects/Bits.cs:63 | `int.Parse` of a digit run succeeds exactly when its value fits in Int32, and returns that value. |
| Bits.SelectTier | TwitchChatVideo/TwitchObjects/Bits.cs:65-73 | The chosen key is 0 or a tier key not above the amount. It is at least every tier key not above the amount. |
| Bits.TierAt | TwitchChatVideo/TwitchObjects/Bits.cs:76 | The indexer succeeds exactly when the key is present and returns that tier. Otherwise it fails with that key. |
| Bits.GetCheer | TwitchChatVideo/TwitchObjects/Bits.cs:46-99 | A word with no match or an unknown prefix yields the default cheer and leaves the cache as it was. For a known prefix it fails exactly when the amount overflows Int32 (`AmountOverflow`) or the selected tier key is absent (`MissingTier` of that key). On success the amount is the parsed digits, and the image is the cached entry under "prefix-tier" or, when there is none, the download of that name. The returned cache holds that image under that name. The cache only grows, keeps its entries, and stays consistent with the download. |
| Bits.CachedCheerAgrees | TwitchChatVideo/TwitchObjects/Bits.cs:78-98 | With a consistent cache, `GetCheer` gives the same cheer or the same error as a lookup with an empty cache. |
| Bits.CheerPicksHighestTier | TwitchChatVideo/TwitchObjects/Bits.cs:63-98 | A recognised cheer reports the parsed amount. Its colour is that of the highest tier whose MinBits does not exceed the amount, and its image is the download named after the prefix and that tier. |
| Bits.CheerBelowAllTiersFails | TwitchChatVideo/TwitchObjects/Bits.cs:65-76 | When every tier is above the amount, the lookup of key 0 raises. |
| Layout.Normalize | TwitchChatVideo/ChatHandler.cs:202-205 | Text without surrogate code units is left unchanged. |
| Layout.EmoteAt | TwitchChatVideo/ChatHandler.cs:281 | Returns the first emote whose Begin equals the cursor, or none exactly when no emote begins there. |
| Layout.Step | TwitchChatVideo/ChatHandler.cs:278-357 | One word iteration succeeds exactly when the word resolves. It advances the cursor by the word's length plus one. |
| LayoutSteps.NewLineKeeps | TwitchChatVideo/ChatHandler.cs:258-267 | Closing a line with no text pending keeps the layout invariant and the shown content. The current line becomes the last finished line, and an empty line starts. |
| LayoutSteps.FlushKeeps | TwitchChatVideo/ChatHandler.cs:269-276 | Flushing the pending text keeps the invariant and the shown content, and leaves a non-empty line. |
| LayoutSteps.PlaceImageKeeps | TwitchChatVideo/ChatHandler.cs:285-307 | Placing an emote keeps the invariant and appends exactly that image. The current line is closed before it exactly when the pen plus the image width plus the pad is greater than the width. |
| LayoutSteps.PlaceAmountKeeps | TwitchChatVideo/ChatHandler.cs:334-341 | Placing a cheer amount keeps the invariant and appends exactly the printed amount in the tier colour. The line is closed before it exactly when the pen plus the label width plus the pad reaches the width. |
| LayoutSteps.PlaceWordKeeps | TwitchChatVideo/ChatHandler.cs:345-357 | Placing a text word keeps the invariant and appends exactly the word and one space in the chat colour. One line is closed, after the pending text is flushed, exactly when the pen plus the width of the pending text with the word and a space, plus the pad, reaches the width. Otherwise no line is closed. |
| LayoutSteps.StepIsPlaceStep | TwitchChatVideo/ChatHandler.cs:280-283 | One iteration is one resolution at the cursor followed by one placement. |
| LayoutSteps.LoopIsFold | TwitchChatVideo/ChatHandler.cs:278-358 | The word loop fails exactly when some word fails to resolve. Otherwise it is the fold of placement over the resolved words. |
| LayoutSteps.FoldKeeps | TwitchChatVideo/ChatHandler.cs:278-358 | Folding placement keeps the invariant, including that every line break so far was forced, and adds exactly the content of every resolved word, in order. |
| LayoutTheorems.BadgesKeep | TwitchChatVideo/ChatHandler.cs:221-237 | The badges that resolve are placed in order, each centred on the user tag's height. Badges show no content. |
| LayoutTheorems.HeaderKeeps | TwitchChatVideo/ChatHandler.cs:218-256 | The header is the badge row, when badges are shown, then the user tag with a colon in the contrast-adjusted author colour. |
| LayoutTheorems.FinishKeeps | TwitchChatVideo/ChatHandler.cs:360-370 | After the last word, the finished lines are non-empty and stacked, every break between them was forced, and they show everything seen so far. |
| LayoutTheorems.MakeDrawableMessageCorrect | TwitchChatVideo/ChatHandler.cs:195-377 | Layout fails exactly when some word fails to resolve. Otherwise the lines are laid out and stacked and show exactly the resolved words' content. Every line after the first starts with an item that did not fit on the line before: an emote that would pass the width, an amount label that would reach it, or a word that, appended to the text ending the previous line, would reach it. The first line starts with the header; the start frame is kept; the message is live exactly when its source is "chat". |
| LayoutTheorems.FirstLineHeader | TwitchChatVideo/ChatHandler.cs:218-256 | A laid-out message's first line opens with its header row. |
| LayoutTheorems.PackedAbutting | TwitchChatVideo/ChatHandler.cs:302-304 | In a laid-out line each drawable starts where the previous one ends, plus the emote pad before an emote. |
| LayoutTheorems.DoneStacked | TwitchChatVideo/ChatHandler.cs:258-267 | Each finished line sits its own shift below the bottom of the line above. The running y is the bottom of the last line. |
| LayoutTheorems.LineOrder | TwitchChatVideo/ChatHandler.cs:255-304 | Drawables of a line run left to right from the horizontal pad. |
| LayoutTheorems.WithinBand | TwitchChatVideo/ChatHandler.cs:297-301 | No drawable reaches above the band of its line. |
| LayoutTheorems.LinesDescend | TwitchChatVideo/ChatHandler.cs:260-263 | Later lines of a message never sit above earlier ones. |
| LayoutTheorems.ResolveOrder | TwitchChatVideo/ChatHandler.cs:280-343 | A word tries emoji, FFZ, BTTV and the native emote, in that order. Only then does it try a cheer, when the message has bits and the channel a cheer table. A failed cheer lookup or a missing cheer image raises; a zero amount falls back to text. |
| LayoutTheorems.PlainTextShown | TwitchChatVideo/ChatHandler.cs:345-365 | With nothing that resolves to an image, layout succeeds. It shows the message's words, each followed by one space, in the chat colour. |
| LayoutTheorems.PlainTextRoundTrip | TwitchChatVideo/ChatHandler.cs:202-365 | Take a text of words separated by single spaces, with no surrogates and nothing that resolves to an image. It is shown exactly as written, followed by one space. |
| Compositor.Admit | TwitchChatVideo/ChatVideo.cs:135-150 | One admission step takes at most one message. It either changes nothing or moves past the next message, pushing it or not. |
| Compositor.AdmitCases | TwitchChatVideo/ChatVideo.cs:135-150 | A message that may not appear is dropped. One that may appear is pushed exactly when its start frame is before the frame. Otherwise nothing changes. |
| Compositor.ScheduleConsistent | TwitchChatVideo/ChatVideo.cs:125-150 | At every frame the stack, read bottom to top, is exactly the admitted messages that may appear, in their original order. |
| Compositor.ShownAfterStart | TwitchChatVideo/ChatVideo.cs:141-145 | Every message on the stack when a frame is drawn has a start frame before that frame. |
| Compositor.Drain | TwitchChatVideo/ChatVideo.cs:135-150 | Take messages that may all appear and all start before the first frame. One is taken per frame. |
| Compositor.SelectSpec | TwitchChatVideo/ChatVideo.cs:189-193 | The drawn messages are the newest ones, taken while the running height before each is below `Height - 2 * VerticalPad`. Selection stops at the first message where it is not. |
| Compositor.NewestDrawn | TwitchChatVideo/ChatVideo.cs:189-193 | The newest message is always drawn when the video is taller than the two pads. |
| Compositor.PaintOf | TwitchChatVideo/ChatVideo.cs:207-235 | Every drawable becomes one string or image paint, at its line's offset plus its own plus the message's anchor. |
| Compositor.LayerAt | TwitchChatVideo/ChatVideo.cs:199-205 | The k-th selected message is painted with its anchor at the bottom anchor minus the extents of itself and the newer messages. |
| Compositor.PaintMessagesLayers | TwitchChatVideo/ChatVideo.cs:201-238 | The frame's message paints are each selected message's paints in order, newest first. |
| Compositor.DrawFrameShape | TwitchChatVideo/ChatVideo.cs:184-246 | A frame is a clear to the background, then the selected messages from the bottom pad upwards, then the top pad strip filled with the background. |
| Compositor.EmoteRepeats | TwitchChatVideo/ChatVideo.cs:230-235 | An animated emote shows the same sub-frame again after a whole cycle of frames. A still emote looks the same in every frame. |
| Compositor.WriteVideoFrames | TwitchChatVideo/ChatVideo.cs:111-163 | Returns true exactly when no frame from start to end is cancelled. It then writes one frame per frame number. On cancellation it stops at the first cancelled frame. Each written frame is `DrawFrame` of the stack after that frame's admission step. |
| Compositor.VideoId | TwitchChatVideo/ChatVideo.cs:38 | The ID is the URL's text after its last '/', or empty when there is no URL. |
| Compositor.VideoIdCases | TwitchChatVideo/ChatVideo.cs:38 | The ID is the whole URL exactly when the URL has no '/'. It is empty when the URL ends in '/'. |
| Compositor.VideoIdIdempotent | TwitchChatVideo/ChatVideo.cs:38 | Taking the ID of an ID changes nothing. |

## Left out

- Network and disk lookups are oracle fields of `Renderer` or parameters that return an image or nothing. These are `Emoji.GetEmoji`, `Emoji.Exists`, `FFZ.GetEmote`, `BTTV.GetEmote`, `TwitchEmote.GetEmote`, `Badges.Lookup` and `TwitchDownloader.GetImage`. Their caching and file paths are not modelled.
- GDI is not modelled. `MeasureText` is an oracle that returns a non-negative size. Fonts, brushes, `Dispose`, and reading the GIF frame-delay property are left out. A drawn frame is a list of paint commands, not a bitmap.
- Single-precision floating point is modelled as exact real arithmetic, so float rounding in the layout is not modelled.
- `StartFrame` is the conversion `(uint)(TimeOffset * FPS)`. It and the last frame `(int)(FPS * Duration)` (`ChatVideo.cs:89`) are taken as inputs.
- The author colour is an input: the random colour for a message without one is chosen outside the core (`TwitchObjects/ChatMessage.cs:13`), and the memo at `ChatHandler.cs:239-253` is unreachable.
- The emote-offset bump in the surrogate callback (`ChatHandler.cs:204`) changes struct copies only, so no offset is shifted.
- `ToLower` and the regex classes `[A-Za-z]` and `\d` are ASCII only. Culture-sensitive case mapping and non-ASCII digits are not modelled.
- The model has no null strings or lists. The `cheers`, `Badges` and `Emotes` lists are null-guarded with `?.` (`Bits.cs:28`, `ChatHandler.cs:223`, `ChatHandler.cs:281`), so an empty sequence stands for them. A null `CheerTiers` list (`Bits.cs:31`), a null message text or name, and the exceptions those raise are not modelled.
- Exceptions thrown inside an image download are not modelled. A download returns an image or nothing.
- Progress reporting, `async`/`Task.Run`, the video encoder and its `WriteVideoFrame` are left out. `CreateVideoAsync`, the preview, the settings and the views are outside this model.
- The cancellation token is a function from frame number to "cancellation requested".
- `Colors.cs` and `Extensions.GetDescription` are outside this model.
- Compositor.PaintOf: a badge is drawn with image frame 0. The source draws the badge image's current active frame, which this model takes to be the first.
- Compositor.WriteVideoFrames: returns the frames it would write, as paint lists, rather than writing them to an encoder.
- Layout.Normalize: its contract states only that text without surrogate code units is unchanged. The emoji expansion is stated by its definition and used through `MakeDrawableMessageCorrect`.
- The `lineSpacing` setting is taken as given from the video settings.
