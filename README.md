# Pixel-Portfolio desktop script, modelled in Dafny

The portfolio page is a small fake desktop. `script.js` opens and closes
windows by type, keeps them stacked by a z-index counter, and limits how many
are open at once. It shows project images in a viewer with previous/next
navigation and shows a recipe file in a second viewer, rendered by a small
Markdown renderer. It also remembers in browser storage whether sounds are
on. This project models the logic behind those features:

- `JsText`: the JavaScript string operations the script relies on. These are
  `trim`, `startsWith`, `includes`, the `\s` whitespace class, the line
  terminators that `.` refuses, ASCII `toLowerCase` and `${n}` for a number.
- `HtmlEscape`: `escapeHtml`, with a decoder that proves it loses nothing.
- `MarkdownSyntax`: the line splitting and the two regular expressions of
  the renderer. Each expression is stated both as a matcher and as the shape
  of the strings it accepts.
- `Markdown`: `renderMarkdown`.
  - The loop body is `Step`, the loop over a prefix is `Run`, and the whole
    output is `Render`. All three work on a token sequence, and `Html` turns
    tokens into text.
  - The method `RenderMarkdown` is the loop itself over `html`, `inCode` and
    `inList`. It is proved to produce `Html(Render(...))`.
- `MarkdownProperties`: the classification order, what each kind of line
  produces, verbatim code blocks, list runs, and the pairing of the block tags.
- `WindowTypes`: `detectType`.
- `Desktop`: the coordinator state (`openTypes`, `zIndexCounter`,
  `imageModalOpen`, `PROJECT_IMAGES`, `currentImageIndex`, the two viewers, the
  window list) as a value, with one function per operation. The image list is
  updated in the corrected form of the first finding below. The key handlers
  are there twice: as corrected (`Handle`) and as written (`HandleAsWritten`).
- `DesktopProperties`: every operation keeps the invariant `Valid`, the key
  handlers in both versions included. Any sequence of the modelled events from
  page load therefore leaves at most four windows open besides the main one.
  The events are opening, closing and raising windows, the viewer operations
  and key presses. The module also proves the promised behaviour of opening,
  closing, raising and image cycling.
- `Coordination`: the coordinator as an object whose fields are the closure
  variables, updated step by step in the source's order. Each method is proved
  to leave the object in the state the matching `Desktop` function computes.
  Every method that changes the object also keeps `Valid`, except the two
  viewer builders (`createImageModalIfNeeded`, `createRecipeModalIfNeeded`):
  `showImageByIndex` calls the image builder after it has already moved the
  index, in a state the invariant does not describe. The key handlers are
  there in both versions.
- `SoundSetting`: the persisted sound flag.
- `Findings`: two places where the script does something other than what it
  evidently means (see below).

I/O is replaced by parameters:

- Storage is a value plus a flag saying whether a write succeeds.
- The recipe `fetch` is split into the request (`OpenRecipeModal`) and its two
  outcomes (`RecipeLoaded` with the text, `RecipeFailed` with the message).
- The page's windows are given by the title images from which `detectType`
  reads their types.

## Model

| member | source | states |
|---|---|---|
| JsText.WhitespaceRun | script.js:243 | the leading whitespace run (the start half of `trim`) is all whitespace and is followed by a non-whitespace character or the end |
| JsText.TrailingWhitespaceRun | script.js:243 | the trailing whitespace run is all whitespace and is preceded by a non-whitespace character or the start |
| JsText.TrimEmptyIff | script.js:276 | `line.trim() === ''` holds exactly when the line is made only of whitespace (both directions) |
| JsText.TrimFirst | script.js:243 | a line that is not all whitespace keeps, after `trim`, its first non-whitespace character in front |
| JsText.Trim | script.js:243 | `trim` returns a slice of the line with only whitespace cut off before and after it, and a non-empty result starts and ends with a non-whitespace character, so exactly the two whitespace runs are removed |
| JsText.ContainsIff | script.js:617-621 | `includes` holds exactly when the keyword occurs at some position of the text |
| JsText.Contains | script.js:617-621 | `includes` finds a keyword at the start of the text and never finds one longer than the text |
| JsText.ToLower | script.js:616 | `toLowerCase` keeps the length and folds each ASCII letter |
| JsText.NatToString | script.js:262 | the number in `` `<h${n}>` `` is written as a non-empty string of decimal digits |
| JsText.ParseNatToString | script.js:262 | reading the decimal rendering back gives the number |
| JsText.NatToStringInjective | script.js:622 | distinct numbers are written as distinct strings |
| HtmlEscape.EscapeChar | script.js:208-214 | `&`, `<`, `>`, `"` and `'` map to their entities, and every other character maps to itself (both directions) |
| HtmlEscape.EscapeHtml | script.js:207-215 | the output is at least as long as the input and contains no raw `<`, `>`, `"` or `'` |
| HtmlEscape.EscapeHtmlAppend | script.js:207-215 | escaping text that is split in two gives the two escaped halves, concatenated |
| HtmlEscape.EscapeHtmlIdentity | script.js:207-215 | text without any of the five characters is returned unchanged |
| HtmlEscape.UnescapeEscapeChar | script.js:208-214 | decoding one escaped character followed by more text gives the character, then the decoded rest |
| HtmlEscape.UnescapeEscape | script.js:207-215 | decoding the escaped text gives the original text, so nothing is lost |
| HtmlEscape.EscapeHtmlInjective | script.js:207-215 | two texts with the same escaped form are equal |
| MarkdownSyntax.SplitLines | script.js:219 | `split('\n')` gives at least one piece, and no piece contains a newline |
| MarkdownSyntax.JoinSplitLines | script.js:219 | joining the pieces with `\n` gives the text back |
| MarkdownSyntax.SplitJoinLines | script.js:219 | splitting newline-free lines joined by `\n` gives the same lines |
| MarkdownSyntax.NormalizeNewlines | script.js:219 | the CRLF replacement never lengthens the text |
| MarkdownSyntax.NormalizeAtCrlf | script.js:219 | every `\r\n` is replaced by `\n` whatever text surrounds it, including a stray `\r` just before it, and the text on each side is normalised on its own |
| MarkdownSyntax.NormalizeNewlinesPrefix | script.js:219 | the CRLF replacement leaves a prefix without carriage returns alone |
| MarkdownSyntax.NormalizeCrlfDocument | script.js:219 | a document with CRLF line ends normalises to the same lines with LF ends |
| MarkdownSyntax.CrlfDocumentLines | script.js:219 | a CRLF document and its LF twin give the renderer the same lines |
| MarkdownSyntax.HashRun | script.js:259 | the count of leading `#` covers only `#` and stops at a non-`#` or the end |
| MarkdownSyntax.MatchHeading | script.js:259 | a heading match has a level from 1 to 6, and its text is a suffix of the line without line terminators that leaves room for the `#` run and at least one whitespace character |
| MarkdownSyntax.MatchHeadingSound | script.js:259 | every heading match has the accepted shape: one to six `#`, whitespace, then a rest without line terminators; the captured text starts after all of the whitespace |
| MarkdownSyntax.MatchHeadingComplete | script.js:259 | every line of that shape is matched, at its level, with the text after the whitespace captured |
| MarkdownSyntax.MatchListItemSound | script.js:266 | every list match has the accepted shape: leading whitespace, `-` or `*`, whitespace, a rest without line terminators; the captured text starts after all of the whitespace |
| MarkdownSyntax.MatchListItemComplete | script.js:266 | every line of that shape is matched, with the text after the whitespace captured |
| MarkdownSyntax.LineClassesDisjoint | script.js:243-283 | fence, heading, list item and blank lines are mutually exclusive, so the order of the tests only matters against the paragraph fallback |
| MarkdownSyntax.IsBlank | script.js:276 | a line is blank exactly when it is made only of whitespace (both directions) |
| Markdown.HtmlAppend | script.js:218-290 | the text of two token sequences is the two texts, concatenated |
| Markdown.TokenHtml | script.js:224-283 | every token the loop emits writes a non-empty piece of HTML |
| Markdown.RenderMarkdown | script.js:218-290 | the loop over the lines with its two flags produces exactly the text of `Render` for the normalised, split document |
| Markdown.RenderLine | script.js:243-283 | one pass of the loop body sets the flags to those of `Step` and appends the text of its tokens |
| Markdown.CloseListHtml | script.js:224-229 | `closeList` appends `</ul>` only when a list is open, and clears the flag |
| Markdown.RunSnoc | script.js:242-284 | the loop over one more line is one more `Step` after the loop over the prefix |
| MarkdownProperties.StepScan | script.js:243-283 | every pass of the loop body emits tokens that respect the tag nesting, and leaves the flags where those tokens leave them |
| MarkdownProperties.RunScan | script.js:242-284 | after any number of lines, the output so far respects the nesting, and the flags record exactly which blocks are open |
| MarkdownProperties.FinishScan | script.js:286-287 | the closing tags after the loop close whatever is still open |
| MarkdownProperties.RenderBalanced | script.js:218-290 | in the whole output every `<ul>` and `<pre><code>` is closed, no `</ul>` or `</code></pre>` lacks an opener, list items occur only inside a list, code text only inside a code block, and headings, breaks and paragraphs only outside both |
| MarkdownProperties.FenceLine | script.js:243-252 | a fence line toggles the code flag, emits `<pre><code>` or `</code></pre>`, and leaves the list flag alone |
| MarkdownProperties.CodeLine | script.js:254-257 | inside code every non-fence line is emitted as escaped code text, with no other interpretation |
| MarkdownProperties.HeadingLine | script.js:259-264 | a heading line outside code closes an open list and becomes a heading whose level is the number of `#` and whose text follows the whitespace |
| MarkdownProperties.ListItemLine | script.js:266-274 | a list item line outside code becomes a list item, with `<ul>` first only when no list is open; a list is open afterwards |
| MarkdownProperties.ListStep | script.js:266-274 | the same for every line the list pattern matches |
| MarkdownProperties.BlankLine | script.js:276-280 | a whitespace-only line outside code closes an open list and becomes `<br>` |
| MarkdownProperties.ParagraphLine | script.js:282-283 | outside code, a line that is no fence, heading, list item or blank line closes an open list and becomes a paragraph holding the whole line |
| MarkdownProperties.ListClosedBy | script.js:224-283 | outside code an open list stays open exactly on fence and list item lines (both directions); on any other line `</ul>` is the first thing emitted |
| MarkdownProperties.CodeBodyVerbatim | script.js:254-257 | inside a code block, non-fence lines are copied one by one as code text and the flags do not change |
| MarkdownProperties.FencedBlock | script.js:243-257 | a fenced block outside code becomes `<pre><code>`, one code text per body line, then `</code></pre>`, and an open list stays open |
| MarkdownProperties.UnclosedFence | script.js:286-287 | a fence still open at the end is closed after the list is closed: the body's code text, then `</ul>` if a list was open, then `</code></pre>` |
| MarkdownProperties.ListRun | script.js:266-274 | a run of list item lines outside code forms one list: `<ul>` once before the first item (unless a list is already open), then one item per line with what the pattern captured |
| WindowTypes.DetectTypeByRules | script.js:613-623 | `detectType` picks the type of the first keyword in the table (`project`, `link`, `mc skin`, `support`, `discord`) that occurs in the lower-cased title, or `window-N` when none does |
| WindowTypes.TitleText | script.js:614-616 | the title text is the `alt` when it is not empty, the `src` when the `alt` is empty, and the empty string when there is no image |
| WindowTypes.Classify | script.js:617-622 | the type is one of the five named types or the window's `window-N` fallback, and it is the fallback when no keyword occurs |
| WindowTypes.DetectType | script.js:613-623 | the type is one of the five named types or the window's `window-N` fallback |
| WindowTypes.FirstRuleAt | script.js:617-621 | the first keyword that occurs decides the type, whatever later keywords also occur |
| WindowTypes.FirstRuleFires | script.js:617-621 | a type from the table always comes from a keyword that occurs, with no earlier keyword occurring |
| WindowTypes.FallbackNotNamed | script.js:622 | a `window-N` type never equals a named type |
| WindowTypes.FallbackInjective | script.js:622 | different positions give different fallback types |
| WindowTypes.UntitledFallback | script.js:614-616 | a window without a title image gets its fallback type |
| WindowTypes.DetectTypeCaseInsensitive | script.js:616 | the type does not depend on the letter case of `alt` or `src` |
| Desktop.Initial | script.js:662-681 | after set-up every window is hidden at z-index 0 and keeps its position and type |
| Desktop.FindWindow | script.js:692-694 | `getWindowByType` gives the first window of the type, or none if no window has it |
| Desktop.CountOpenWindows | script.js:695-697 | the count includes the main window, so it is at least one |
| Desktop.BringToFront | script.js:698-702 | the counter goes up by exactly one, the window takes the new value, and nothing else changes: the other windows and every other field of the desk are kept |
| Desktop.RaiseWindow | script.js:855-862 | a click raises a displayed window exactly as `bringToFront` does (the window goes on top, every other window and every other field is kept), and leaves a hidden one alone |
| Desktop.OpenWindow | script.js:704-743 | the outcome is decided by the tests in order (no window, modal open, already open, capacity 5 including the main window) in both directions; every exit but raising and opening changes nothing; raising keeps `openTypes`; raising is exactly `bringToFront` of that window; opening adds the type, shows the window and puts it on top; in both, every other window is kept, and no exit changes anything but the windows, the open types and the counter |
| Desktop.CloseWindow | script.js:745-753 | an unknown type changes nothing; otherwise the type leaves `openTypes` and its window is hidden, keeping its type and z-index; every other window and every other field of the desk is kept |
| Desktop.JsRem | script.js:562 | JavaScript `%`: the remainder lies strictly between `-n` and `n`, has the sign of the dividend, and differs from the dividend by a multiple of `n`; these fix it uniquely |
| Desktop.NormalizeIndex | script.js:562 | the double remainder always lands in `[0, len)` |
| Desktop.NormalizeIndexIsModulo | script.js:562 | `((index % len) + len) % len` is the non-negative remainder, so every integer lands in `[0, len)` and indices in range are kept |
| Desktop.ShowImageByIndex | script.js:558-570 | on an empty list nothing changes; otherwise the index becomes `index mod len` and the viewer shows that entry, the viewer being built hidden and its key handler registered on first use, and an existing viewer and the handlers being kept; only the index, the shown image, the viewer and the handlers can change |
| Desktop.ShowPrevImage | script.js:572-575 | with no image selected (`-1`) nothing changes |
| Desktop.ShowNextImage | script.js:577-580 | with no image selected (`-1`) nothing changes |
| Desktop.FindImage | script.js:584 | `findIndex` by source gives the first entry with that source, or none |
| Desktop.EnsureImageViewer | script.js:462-556 | the image viewer exists afterwards, and one that already existed is reused with nothing changed |
| Desktop.SelectImage | script.js:583-590 | corrected form: a known source selects its entry, an unknown one is appended as `{src, name}` and selected, and the viewer shows the selected entry |
| Desktop.OpenImageModal | script.js:582-599 | corrected form: a known source selects its entry; an unknown source is appended as `{src, name}` and selects the last index; the viewer is shown with that entry and the modal flag set; windows, open types and counter are unchanged |
| Desktop.CloseImageModal | script.js:601-611 | once the viewer exists, the flag is cleared, the index reset to -1 and the viewer hidden; before that nothing changes; no other field of the desk changes |
| Desktop.EnsureRecipeViewer | script.js:292-377 | the recipe viewer exists afterwards, and one that already existed is reused with nothing changed |
| Desktop.OpenRecipeModal | script.js:379-388 | while the flag is set nothing changes; otherwise the recipe viewer is shown above the counter and the flag is set; only the recipe viewer, the flag and (on first use) the key handlers can change |
| Desktop.RecipeLoaded | script.js:395-398 | a fetched text is kept for download and its rendering is the viewer's content; nothing else changes |
| Desktop.RecipeFailed | script.js:399-403 | a failed fetch shows the failure page and drops the download; nothing else changes |
| Desktop.CloseRecipeModal | script.js:406-417 | once the viewer exists, it is hidden, the flag is cleared and content and download are dropped; nothing else changes |
| Desktop.Handle | script.js:533-547 | corrected form, for this handler and the recipe's (lines 365-371): a key never touches the windows, the counter or the image list, and a handler whose viewer is not displayed does nothing |
| Desktop.Dispatch | script.js:533-547 | corrected form: running the handlers in order never touches the windows, the counter or the image list |
| Desktop.KeyDown | script.js:533-547 | corrected form: a key press never touches the windows, the counter or the image list |
| Desktop.HandleAsWritten | script.js:365-371 | as written, for this handler and the image one (lines 533-547): a key never touches the windows, the counter or the image list, and does nothing while `imageModalOpen` is clear |
| Desktop.DispatchAsWritten | script.js:365-371 | as written: running the handlers in order never touches the windows, the counter or the image list |
| Desktop.KeyDownAsWritten | script.js:533-547 | as written: a key press never touches the windows, the counter or the image list |
| DesktopProperties.InitialValid | script.js:662-690 | the page after set-up satisfies `Valid` |
| DesktopProperties.BringToFrontValid | script.js:698-702 | raising keeps `Valid`, and the raised window is then strictly above every other window |
| DesktopProperties.RaiseWindowValid | script.js:855-862 | a click keeps `Valid`, and a displayed window is then strictly above every other window |
| DesktopProperties.OpenWindowValid | script.js:704-743 | `openWindow` keeps `Valid`, including the bound of four open types besides the main window |
| DesktopProperties.CloseWindowValid | script.js:745-753 | `closeWindow` keeps `Valid` |
| DesktopProperties.OpenThenClose | script.js:704-753 | trying to open a type that is not open and then closing it gives back the open types, whatever the attempt did; a window that was opened is hidden again |
| DesktopProperties.CloseWindowIdempotent | script.js:745-753 | closing twice is closing once |
| DesktopProperties.CloseWindowOnlyThat | script.js:752 | closing a type leaves every other type as open or closed as it was |
| DesktopProperties.ReopenRaises | script.js:713-716 | opening a type a second time raises its window and does nothing else: the desk is exactly `bringToFront` of the first result, with `openTypes` kept and the counter one higher |
| DesktopProperties.FullDeskRejects | script.js:717-729 | with four types open besides the main window, a fifth is refused and nothing changes |
| DesktopProperties.ModalBlocksOpen | script.js:711 | while a modal is open, `openWindow` changes nothing |
| DesktopProperties.ShowImageByIndexValid | script.js:558-570 | showing an image by index keeps `Valid` |
| DesktopProperties.ShowPrevNextValid | script.js:572-580 | previous and next keep `Valid` |
| DesktopProperties.NextStep | script.js:577-580 | one "next" moves to the following entry, wrapping at the end, and the viewer shows it |
| DesktopProperties.NextTimesIndex | script.js:558-580 | `n` presses of "next" move the index by `n` modulo the length, and the viewer shows the entry reached |
| DesktopProperties.NextCycle | script.js:558-580 | as many "next" presses as there are images come back to the starting image |
| DesktopProperties.PrevFromFirst | script.js:558-575 | "previous" from the first image wraps to the last |
| DesktopProperties.PrevAfterNext | script.js:572-580 | "previous" undoes "next" |
| DesktopProperties.SelectImageValid | script.js:582-590 | corrected form: selecting or appending the image keeps `Valid` |
| DesktopProperties.OpenImageModalValid | script.js:582-599 | corrected form: `openImageModal` keeps `Valid` |
| DesktopProperties.ReopenSameImage | script.js:582-590 | corrected form: opening the same image twice adds it at most once and selects the same entry both times |
| DesktopProperties.CloseImageModalValid | script.js:601-611 | `closeImageModal` keeps `Valid` |
| DesktopProperties.OpenRecipeModalValid | script.js:379-388 | `openRecipeModal` keeps `Valid` |
| DesktopProperties.CloseRecipeModalValid | script.js:406-417 | `closeRecipeModal` keeps `Valid` |
| DesktopProperties.RecipeLoadedValid | script.js:395-398 | a loaded recipe keeps `Valid` |
| DesktopProperties.RecipeFailedValid | script.js:399-403 | a failed load keeps `Valid` |
| DesktopProperties.HandleValid | script.js:533-547 | corrected form: one key handler (this one or the recipe's at lines 365-371) keeps `Valid` |
| DesktopProperties.DispatchValid | script.js:533-547 | corrected form: the handlers in registration order keep `Valid` |
| DesktopProperties.HandleAsWrittenValid | script.js:365-371 | as written: one key handler (this one or the image one at lines 533-547) keeps `Valid` |
| DesktopProperties.DispatchAsWrittenValid | script.js:533-547 | as written: the handlers in registration order keep `Valid` |
| DesktopProperties.ApplyAllValid | script.js:379-863 | any sequence of the modelled events keeps `Valid`: opening, closing and raising windows, the viewer operations, recipe results, and key presses with the handlers as written or as corrected |
| DesktopProperties.AlwaysValid | script.js:695-743 | with the limit of line 198, after any sequence of the modelled events from page load, at most four windows besides the main one are open, and the image index is -1 or a valid entry |
| Coordination.SetUpWindows | script.js:662-681 | the set-up loop types each window with `detectType` at its position and hides it at z-index 0 |
| Coordination.Coordinator.constructor | script.js:662-690 | the object starts in `Initial` and satisfies `Valid` |
| Coordination.Coordinator.GetWindowByType | script.js:692-694 | the search loop finds the first window of the type, or none |
| Coordination.Coordinator.BringToFront | script.js:698-702 | the fields after the call are those of `Desktop.BringToFront`, and `Valid` is kept |
| Coordination.Coordinator.OpenWindow | script.js:704-743 | the fields and the exit taken are those of `Desktop.OpenWindow`, and `Valid` is kept |
| Coordination.Coordinator.CloseWindow | script.js:745-753 | the fields are those of `Desktop.CloseWindow`, and `Valid` is kept |
| Coordination.Coordinator.CreateImageModalIfNeeded | script.js:462-556 | the fields are those of `Desktop.EnsureImageViewer` |
| Coordination.Coordinator.RaiseWindow | script.js:855-862 | the click leaves the fields of `Desktop.RaiseWindow`, and `Valid` is kept |
| Coordination.Coordinator.ShowImageByIndex | script.js:558-570 | the fields are those of `Desktop.ShowImageByIndex`, and `Valid` is kept |
| Coordination.Coordinator.ShowPrevImage | script.js:572-575 | the fields are those of `Desktop.ShowPrevImage`, and `Valid` is kept |
| Coordination.Coordinator.ShowNextImage | script.js:577-580 | the fields are those of `Desktop.ShowNextImage`, and `Valid` is kept |
| Coordination.Coordinator.FindImageIndex | script.js:584 | the search loop gives the first entry with the source, and -1 exactly when there is none |
| Coordination.Coordinator.SelectImage | script.js:583-590 | corrected form: the fields are those of `Desktop.SelectImage`, and `Valid` is kept |
| Coordination.Coordinator.OpenImageModal | script.js:582-599 | corrected form: the fields are those of `Desktop.OpenImageModal`, and `Valid` is kept |
| Coordination.Coordinator.CloseImageModal | script.js:601-611 | the fields are those of `Desktop.CloseImageModal`, and `Valid` is kept |
| Coordination.Coordinator.CreateRecipeModalIfNeeded | script.js:292-377 | the fields are those of `Desktop.EnsureRecipeViewer` |
| Coordination.Coordinator.OpenRecipeModal | script.js:379-388 | the fields are those of `Desktop.OpenRecipeModal`, and `Valid` is kept |
| Coordination.Coordinator.RecipeLoaded | script.js:395-398 | the fields are those of `Desktop.RecipeLoaded`, and `Valid` is kept |
| Coordination.Coordinator.ShowRecipe | script.js:396-402 | only the viewer's content and the download change, and `Valid` is kept |
| Coordination.Coordinator.RecipeFailed | script.js:399-403 | the fields are those of `Desktop.RecipeFailed`, and `Valid` is kept |
| Coordination.Coordinator.CloseRecipeModal | script.js:406-417 | the fields are those of `Desktop.CloseRecipeModal`, and `Valid` is kept |
| Coordination.Coordinator.HandleKey | script.js:533-547 | corrected form, for this handler and the recipe's (lines 365-371): the fields are those of `Desktop.Handle`, and `Valid` is kept |
| Coordination.Coordinator.KeyDown | script.js:533-547 | corrected form: the registered handlers (this one and the recipe's at lines 365-371) run in order, the fields are those of `Desktop.KeyDown`, and `Valid` is kept |
| Coordination.Coordinator.HandleKeyAsWritten | script.js:365-371 | as written, for this handler and the image one (lines 533-547): the fields are those of `Desktop.HandleAsWritten`, and `Valid` is kept |
| Coordination.Coordinator.KeyDownAsWritten | script.js:533-547 | as written: the registered handlers run in order, the fields are those of `Desktop.KeyDownAsWritten`, and `Valid` is kept |
| SoundSetting.ReadEnabled | script.js:40 | a missing key reads as on, and a stored encoding of a flag reads as that flag |
| SoundSetting.EncodeEnabled | script.js:45 | the flag is written as `'true'` or `'false'` |
| SoundSetting.ReadEncoded | script.js:40-45 | what is written reads back as the same flag |
| SoundSetting.EncodeInjective | script.js:45 | the two encodings differ |
| SoundSetting.AudibleAfterReload | script.js:40-64 | after a reload the toggle sound always plays, and the other sounds play only if sound was on |
| SoundSetting.Audible | script.js:63-89 | the toggle sound always plays, and any other sound plays exactly when sound is on |
| SoundSetting.SoundSettings.constructor | script.js:40 | at page load the flag is what storage holds, and the two agree |
| SoundSetting.SoundSettings.SetEnabled | script.js:42-46 | the flag takes the value; storage is written only if the write succeeds, and then agrees with the flag |
| SoundSetting.SoundSettings.Toggle | script.js:143-148 | the flag is flipped and written back as for `SetEnabled` |
| Findings.AsWrittenReopenDuplicates | script.js:582-590 | as written, opening an unlisted image twice adds two entries, and the viewer is given an undefined source |
| Findings.CorrectedReopenReuses | script.js:582-590 | corrected, the viewer shows the requested image and a second opening reuses its entry |
| Findings.AsWrittenEscapeLeavesRecipeOpen | script.js:365-371 | as written, with the image handler (lines 533-547) registered first, Escape on an open recipe leaves the recipe on screen with the flag cleared, and further Escapes do nothing |
| Findings.AsWrittenEscapeLeavesImageOpen | script.js:533-547 | as written, with the recipe handler (lines 365-371) registered first, Escape on an open image leaves it on screen with the flag cleared, deaf to Escape and the arrow keys |
| Findings.AsWrittenSituationReachable | script.js:582-611 | the first situation arises from page load: view an image, close it, open the recipe |
| Findings.AsWrittenImageSituationReachable | script.js:379-417 | the second arises from page load too: open the recipe, close it, view an image |
| Findings.DispatchEscape | script.js:533-547 | corrected, for both handlers (the recipe's at lines 365-371), Escape through the handlers closes every displayed viewer and clears the flag |
| Findings.EscapeClosesEverything | script.js:365-371 | corrected, on any valid state Escape leaves no viewer displayed and the flag cleared |

## Left out

- The DOM: elements, `style` and `dataset` writes, `body` classes and the
  `dataset.modalOpen` marks. A window is its type, a shown flag and a
  z-index. A viewer is a shown flag and a z-index; the image viewer also
  holds the image it shows.
- Window positioning (`getMainCenter`, `computeAndStoreOffset`,
  `applyOffsetPosition`, `centerWindow`, the resize handler): floating-point
  geometry over the viewport.
- Dragging (`makeDraggable` and its pointer handlers), the dock buttons and
  the project image buttons: event wiring around the modelled operations.
  The one state change of a drag, raising the window when it starts
  (script.js:764-785), happens only while no modal is open and the pointer
  is not on a button, link or input; it is then the step `RaiseWindow`
  models for the click, which is not guarded, so the reachable states are
  the same. The movement is geometry. `openWindow`
  calls `makeDraggable`, which only sets a flag and installs listeners; the
  model omits that call.
- Audio playback (`sounds`, `playSound`, `playToggleSound`) beyond the
  on/off guard in `Audible`; `updateSoundToggleUI`; and the storage I/O,
  which is a parameter.
- SoundSetting.ReadEnabled: the read at script.js:40 is not inside a `try`,
  so a storage that throws on reading stops the script; the model has no
  throwing read, and storage is only a value or a missing key.
- The recipe `fetch`, the `Blob` and the download button: network and
  browser I/O. The fetched text (or the error message) arrives as a
  parameter. A result is applied only once the recipe viewer exists, which
  is always the case after `openRecipeModal`.
- The clipboard copy with its timer, the `animate` feedback on a rejected
  `openWindow`, and `console.warn`.
- Markdown.Inline: the inline formatter is modelled as `escapeHtml` only,
  because the emphasis, code and link rewriting is not modelled.
- JsText.ToLower: folds ASCII letters only, because the Unicode case mapping
  of `toLowerCase` is not modelled.
- The string `String(err)` for a failed fetch is the parameter `message`.
- MarkdownProperties.RenderBalanced: states the pairing of the tags, not
  proper nesting. The source, as written, closes an open list before an
  unterminated fence at the end of the input, which gives
  `</ul></code></pre>`. A fence inside a list also puts `<pre>` inside
  `<ul>`. `UnclosedFence` states the end-of-input order exactly.
- Desktop.OpenImageModal: corrected form of the first finding. It appends
  `{src, name}` where the source pushes the bare string. The as-written push
  is modelled on the image list alone (`Findings.OpenEntriesAsWritten`),
  because a desk entry without a `src` would show `undefined`, which the
  viewer state does not represent.
- Desktop.SelectImage: corrected form, as for `Desktop.OpenImageModal`.
- Coordination.Coordinator.OpenImageModal: corrected form, as for
  `Desktop.OpenImageModal`.
- Coordination.Coordinator.SelectImage: corrected form, as for
  `Desktop.OpenImageModal`.
- DesktopProperties.SelectImageValid: proved for the corrected push only.
- DesktopProperties.OpenImageModalValid: proved for the corrected push only.
- DesktopProperties.ReopenSameImage: holds for the corrected push only; as
  written, a second opening adds a second entry (`Findings.AsWrittenReopenDuplicates`).
- Desktop.Handle: corrected form of the second finding, acting only while its
  own viewer is displayed. The handler as written is `Desktop.HandleAsWritten`.
- Desktop.Dispatch: corrected form; as written it is `Desktop.DispatchAsWritten`.
- Desktop.KeyDown: corrected form; as written it is `Desktop.KeyDownAsWritten`.
- Coordination.Coordinator.HandleKey: corrected form; as written it is
  `Coordination.Coordinator.HandleKeyAsWritten`.
- Coordination.Coordinator.KeyDown: corrected form; as written it is
  `Coordination.Coordinator.KeyDownAsWritten`.
- DesktopProperties.HandleValid: about the corrected handlers; the handlers
  as written are covered by `DesktopProperties.HandleAsWrittenValid`.
- DesktopProperties.DispatchValid: about the corrected handlers; the handlers
  as written are covered by `DesktopProperties.DispatchAsWrittenValid`.
- DesktopProperties.ApplyAllValid: the key events come in both versions, but
  the image events use the corrected push.
- DesktopProperties.AlwaysValid: as for `DesktopProperties.ApplyAllValid`.
- Coordination.Coordinator: the code changes state, so the methods' contracts
  use `old`. They are tied to the `Desktop` functions, whose properties are
  proved in `DesktopProperties`.

## Findings

| source | as written | input that shows it | evidently intended | confidence | as-written member | corrected member |
|---|---|---|---|---|---|---|
| script.js:588 | `openImageModal` pushes the bare string `imageSrc` onto `PROJECT_IMAGES`, whose other entries are objects `{src, name}` | open an image whose source is not listed, which only a call through the debug object `window.__pixelPortfolio.openImageModal` (script.js:875-882) can do, because the page's buttons (script.js:897-908) pass the `src` of listed entries: `showImageByIndex` then sets `img.src` to `undefined`. Opening it again does not find the entry (a string has no `.src`), so it is pushed a second time | push `{ src: imageSrc, name: altText }`, so the image is shown and found again | not executed | Findings.AsWrittenReopenDuplicates | Findings.CorrectedReopenReuses |
| script.js:365-371 | both `keydown` handlers (this one and the image handler at lines 533-547) return early unless the shared `imageModalOpen` is set, so each closes its own viewer whenever either modal is open | view an image, close it, open the recipe, press Escape: the image handler runs first and clears the flag, and the recipe stays on screen and can no longer be closed with Escape | each handler acts only while its own viewer is displayed | not executed | Findings.AsWrittenEscapeLeavesRecipeOpen | Findings.EscapeClosesEverything |
