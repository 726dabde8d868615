/**
 * The window and modal coordinator of script.js (the closure state at
 * script.js:198-205 and script.js:431-439 and the functions that update it),
 * as a state value `Desk` and one function per operation.
 *
 * A window element is a `Window` value at its position in the page's list of
 * windows: its type (`dataset.type`), whether it is displayed, and its
 * `style.zIndex`.  The two overlays (the image viewer and the recipe viewer)
 * are `None` until their `create...IfNeeded` function has built them.
 */
module Desktop {
  import opened Wrappers
  import opened HtmlEscape
  import Markdown

  /** `MAX_WINDOWS_INCLUDING_MAIN` (script.js:198). */
  const MaxWindowsIncludingMain: nat := 5
  /** The initial `zIndexCounter` (script.js:199). */
  const InitialZIndex: int := 10
  /** Overlays are stacked this far above the counter. */
  const OverlayZOffset: int := 1000

  datatype Window = Window(kind: string, shown: bool, z: int)

  /** A built overlay: displayed or not, and its `style.zIndex`. */
  datatype Overlay = Overlay(shown: bool, z: int)

  datatype ProjectImage = ProjectImage(src: string, name: string)

  /** The two modals, which register their keyboard handlers when first built. */
  datatype Viewer = ImageViewer | RecipeViewer

  datatype Desk = Desk(
    windows: seq<Window>,
    openTypes: set<string>,
    zIndexCounter: int,
    modalOpen: bool,                 // `imageModalOpen`, shared by both modals
    imageViewer: Option<Overlay>,    // `modalOverlayEl`
    viewerImage: Option<ProjectImage>, // `src`/`alt` of the viewer's `<img>`
    images: seq<ProjectImage>,       // `PROJECT_IMAGES`
    currentImageIndex: int,
    recipeViewer: Option<Overlay>,   // `recipeModalEl`
    recipeHtml: string,              // `recipeContentEl.innerHTML`
    recipeBlob: Option<string>,      // text held by `recipeDownloadBlob`
    keyHandlers: seq<Viewer>)        // `keydown` listeners, in registration order

  /** `PROJECT_IMAGES` as declared (script.js:431-437). */
  const InitialImages: seq<ProjectImage> := [
    ProjectImage("textures/projects/project_1.png", "expanded v2"),
    ProjectImage("textures/projects/project_2.png", "mossy tools"),
    ProjectImage("textures/projects/project_3.png", "just discs"),
    ProjectImage("textures/projects/project_4.png", "just icons"),
    ProjectImage("textures/projects/project_5.png", "just crates v2")
  ]

  /** After set-up (script.js:665-690): every window hidden at z-index 0, nothing open or built. */
  function Initial(kinds: seq<string>): (d: Desk)
    ensures |d.windows| == |kinds|
    ensures forall i :: 0 <= i < |kinds| ==> d.windows[i] == Window(kinds[i], false, 0)
  {
    Desk(seq(|kinds|, i requires 0 <= i < |kinds| => Window(kinds[i], false, 0)), {}, InitialZIndex,
      false, None, None, InitialImages, -1, None, "", None, [])
  }

  predicate Shown(o: Option<Overlay>) {
    o.Some? && o.value.shown
  }

  // ---------------------------------------------------------------------------
  // Windows

  /** `windows.find(w => w.dataset.type === type)` from position `start` on. */
  function FindFrom(ws: seq<Window>, kind: string, start: nat): (r: Option<nat>)
    requires start <= |ws|
    ensures r.Some? ==> (start <= r.value < |ws| && ws[r.value].kind == kind
      && forall j :: start <= j < r.value ==> ws[j].kind != kind)
    ensures r.None? ==> forall j :: start <= j < |ws| ==> ws[j].kind != kind
    decreases |ws| - start
  {
    if start == |ws| then None
    else if ws[start].kind == kind then Some(start)
    else FindFrom(ws, kind, start + 1)
  }

  /** `getWindowByType(type)`: the first window of that type. */
  function FindWindow(ws: seq<Window>, kind: string): (r: Option<nat>)
    ensures r.Some? ==> (r.value < |ws| && ws[r.value].kind == kind
      && forall j :: 0 <= j < r.value ==> ws[j].kind != kind)
    ensures r.None? ==> forall j :: 0 <= j < |ws| ==> ws[j].kind != kind
  {
    FindFrom(ws, kind, 0)
  }

  /** `countOpenWindows()`: the main window plus the open ones. */
  function CountOpenWindows(d: Desk): (n: nat)
    ensures n >= 1
  {
    1 + |d.openTypes|
  }

  /**
   * The `click` listener of every window (script.js:855-862): a displayed window
   * is raised, a hidden one is left alone.  The start of a drag (script.js:764-785)
   * takes the same step, but only while no modal is open and the pointer is not on
   * a control; the click is not guarded, so this one event covers both.
   */
  function RaiseWindow(d: Desk, i: nat): (r: Desk)
    requires i < |d.windows|
    ensures |r.windows| == |d.windows| && (!d.windows[i].shown ==> r == d)
    ensures d.windows[i].shown ==> (r.zIndexCounter == d.zIndexCounter + 1 && r.windows[i].z == r.zIndexCounter
      && r.openTypes == d.openTypes && r.modalOpen == d.modalOpen)
    ensures r.windows[i].kind == d.windows[i].kind && r.windows[i].shown == d.windows[i].shown
    ensures forall j :: 0 <= j < |d.windows| && j != i ==> r.windows[j] == d.windows[j]
    ensures r == d.(zIndexCounter := r.zIndexCounter, windows := r.windows)
  {
    if d.windows[i].shown then BringToFront(d, i) else d
  }

  /** `bringToFront(winEl)`: one more on the counter, and the window takes the new value. */
  function BringToFront(d: Desk, i: nat): (r: Desk)
    requires i < |d.windows|
    ensures r.zIndexCounter == d.zIndexCounter + 1
    ensures |r.windows| == |d.windows| && r.windows[i].z == r.zIndexCounter
    ensures r.windows[i].kind == d.windows[i].kind && r.windows[i].shown == d.windows[i].shown
    ensures forall j :: 0 <= j < |d.windows| && j != i ==> r.windows[j] == d.windows[j]
    ensures r.openTypes == d.openTypes && r.modalOpen == d.modalOpen
    ensures r == d.(zIndexCounter := r.zIndexCounter, windows := r.windows)
  {
    d.(zIndexCounter := d.zIndexCounter + 1,
       windows := d.windows[i := d.windows[i].(z := d.zIndexCounter + 1)])
  }

  /** What `openWindow` did, where the source only returns. */
  datatype OpenOutcome = NoSuchWindow | BlockedByModal | Raised | Rejected | Opened

  datatype OpenResult = OpenResult(desk: Desk, outcome: OpenOutcome)

  /** `openWindow(type)` (script.js:704-743), its tests in the source's order. */
  function OpenWindow(d: Desk, kind: string): (r: OpenResult)
    ensures r.outcome == NoSuchWindow <==> FindWindow(d.windows, kind).None?
    ensures r.outcome == BlockedByModal <==> FindWindow(d.windows, kind).Some? && d.modalOpen
    ensures r.outcome == Raised <==> FindWindow(d.windows, kind).Some? && !d.modalOpen && kind in d.openTypes
    ensures r.outcome == Rejected <==> (FindWindow(d.windows, kind).Some? && !d.modalOpen
      && kind !in d.openTypes && CountOpenWindows(d) >= MaxWindowsIncludingMain)
    ensures r.outcome in {NoSuchWindow, BlockedByModal, Rejected} ==> r.desk == d
    ensures |r.desk.windows| == |d.windows|
    ensures r.outcome in {Raised, Opened} ==> (r.desk.zIndexCounter == d.zIndexCounter + 1
      && r.desk.windows[FindWindow(d.windows, kind).value].z == r.desk.zIndexCounter)
    ensures r.outcome == Raised ==> r.desk.openTypes == d.openTypes
    ensures r.outcome == Opened ==> (r.desk.openTypes == d.openTypes + {kind}
      && r.desk.windows[FindWindow(d.windows, kind).value].shown)
    ensures r.outcome == Raised ==> r.desk == BringToFront(d, FindWindow(d.windows, kind).value)
    ensures r.outcome in {Raised, Opened} ==> var i := FindWindow(d.windows, kind).value;
      r.desk.windows[i].kind == d.windows[i].kind
      && forall j :: 0 <= j < |d.windows| && j != i ==> r.desk.windows[j] == d.windows[j]
    ensures r.desk == d.(zIndexCounter := r.desk.zIndexCounter, windows := r.desk.windows, openTypes := r.desk.openTypes)
  {
    match FindWindow(d.windows, kind)
    case None => OpenResult(d, NoSuchWindow)
    case Some(i) =>
      if d.modalOpen then OpenResult(d, BlockedByModal)
      else if kind in d.openTypes then OpenResult(BringToFront(d, i), Raised)
      else if CountOpenWindows(d) >= MaxWindowsIncludingMain then OpenResult(d, Rejected)
      else
        var shown := d.(windows := d.windows[i := d.windows[i].(shown := true)],
                        openTypes := d.openTypes + {kind});
        OpenResult(BringToFront(shown, i), Opened)
  }

  /** `closeWindow(type)` (script.js:745-753): hides the first window of the type and forgets the type. */
  function CloseWindow(d: Desk, kind: string): (r: Desk)
    ensures r.zIndexCounter == d.zIndexCounter && |r.windows| == |d.windows|
    ensures FindWindow(d.windows, kind).None? ==> r == d
    ensures FindWindow(d.windows, kind).Some? ==> (r.openTypes == d.openTypes - {kind}
      && !r.windows[FindWindow(d.windows, kind).value].shown)
    ensures FindWindow(d.windows, kind).Some? ==> var i := FindWindow(d.windows, kind).value;
      r.windows[i].kind == d.windows[i].kind && r.windows[i].z == d.windows[i].z
      && forall j :: 0 <= j < |d.windows| && j != i ==> r.windows[j] == d.windows[j]
    ensures r == d.(windows := r.windows, openTypes := r.openTypes)
  {
    match FindWindow(d.windows, kind)
    case None => d
    case Some(i) =>
      d.(windows := d.windows[i := d.windows[i].(shown := false)], openTypes := d.openTypes - {kind})
  }

  // ---------------------------------------------------------------------------
  // The image viewer

  /** JavaScript's `%` on integers: the remainder has the sign of the dividend. */
  function JsRem(a: int, n: int): (r: int)
    requires n > 0
    ensures -n < r < n && (a >= 0 ==> r >= 0) && (a <= 0 ==> r <= 0)
    ensures (a - r) % n == 0
  {
    if a >= 0 then
      ModUnique(a - a % n, n, a / n, 0);
      a % n
    else
      var b := -a;
      ModUnique(a + b % n, n, -(b / n), 0);
      -(b % n)
  }

  /** `((index % len) + len) % len`. */
  function NormalizeIndex(index: int, len: int): (r: int)
    requires len > 0
    ensures 0 <= r < len
  {
    JsRem(JsRem(index, len) + len, len)
  }

  lemma MulBound(k: int, n: int)
    requires n > 0
    ensures k >= 1 ==> k * n >= n
    ensures k <= -1 ==> k * n <= -n
  {
    if k >= 1 { assert k * n == (k - 1) * n + n; assert (k - 1) * n >= 0; }
    if k <= -1 { assert k * n == (k + 1) * n - n; assert (k + 1) * n <= 0; }
  }

  /** The remainder is the one `r` in `[0, n)` with `a == q * n + r`. */
  lemma ModUnique(a: int, n: int, q: int, r: int)
    requires n > 0 && a == q * n + r && 0 <= r < n
    ensures a % n == r
  {
    var k := q - a / n;
    assert a == (a / n) * n + a % n;
    assert k * n == a % n - r by {
      assert k * n == q * n - (a / n) * n;
    }
    MulBound(k, n);
  }

  /**
   * The double remainder of the source is the mathematical (never negative)
   * remainder, so every integer lands in `[0, len)` and indices already in
   * range are left alone.
   */
  lemma NormalizeIndexIsModulo(index: int, len: int)
    requires len > 0
    ensures NormalizeIndex(index, len) == index % len
    ensures 0 <= index < len ==> NormalizeIndex(index, len) == index
  {
    var r := JsRem(index, len);
    if index >= 0 {
      ModUnique(r + len, len, 1, r);
      if index < len {
        ModUnique(index, len, 0, index);
      }
    } else {
      var q := (-index) / len;
      var s := (-index) % len;
      assert -index == q * len + s;
      if s == 0 {
        ModUnique(index, len, -q, 0);
        ModUnique(r + len, len, 1, 0);
      } else {
        ModUnique(index, len, -q - 1, len - s);
        ModUnique(r + len, len, 0, len - s);
      }
    }
  }

  /** `createImageModalIfNeeded()`: builds the hidden overlay once and registers its key handler. */
  function EnsureImageViewer(d: Desk): (r: Desk)
    ensures r.imageViewer.Some? && (d.imageViewer.Some? ==> r == d)
  {
    if d.imageViewer.Some? then d
    else d.(imageViewer := Some(Overlay(false, d.zIndexCounter + OverlayZOffset)),
            keyHandlers := d.keyHandlers + [ImageViewer])
  }

  /** `showImageByIndex(index)` (script.js:558-570). */
  function ShowImageByIndex(d: Desk, index: int): (r: Desk)
    ensures |d.images| == 0 ==> r == d
    ensures |d.images| > 0 ==> (r.currentImageIndex == index % |d.images|
      && r.viewerImage == Some(d.images[r.currentImageIndex]) && r.imageViewer.Some?)
    ensures r.images == d.images && r.windows == d.windows && r.openTypes == d.openTypes
      && r.modalOpen == d.modalOpen && r.zIndexCounter == d.zIndexCounter
    ensures d.imageViewer.Some? ==> r.imageViewer == d.imageViewer && r.keyHandlers == d.keyHandlers
    ensures |d.images| > 0 && d.imageViewer.None? ==>
      r.imageViewer == Some(Overlay(false, d.zIndexCounter + OverlayZOffset)) && r.keyHandlers == d.keyHandlers + [ImageViewer]
    ensures r == d.(currentImageIndex := r.currentImageIndex, viewerImage := r.viewerImage,
                    imageViewer := r.imageViewer, keyHandlers := r.keyHandlers)
  {
    if |d.images| == 0 then d
    else
      var idx := NormalizeIndex(index, |d.images|);
      NormalizeIndexIsModulo(index, |d.images|);
      EnsureImageViewer(d.(currentImageIndex := idx)).(viewerImage := Some(d.images[idx]))
  }

  /** `showPrevImage()` (script.js:572-575). */
  function ShowPrevImage(d: Desk): (r: Desk)
    ensures d.currentImageIndex == -1 ==> r == d
  {
    if d.currentImageIndex == -1 then d else ShowImageByIndex(d, d.currentImageIndex - 1)
  }

  /** `showNextImage()` (script.js:577-580). */
  function ShowNextImage(d: Desk): (r: Desk)
    ensures d.currentImageIndex == -1 ==> r == d
  {
    if d.currentImageIndex == -1 then d else ShowImageByIndex(d, d.currentImageIndex + 1)
  }

  /** `PROJECT_IMAGES.findIndex(p => p.src === imageSrc)`, as an option. */
  function FindImage(images: seq<ProjectImage>, src: string): (r: Option<nat>)
    ensures r.Some? ==> (r.value < |images| && images[r.value].src == src
      && forall j :: 0 <= j < r.value ==> images[j].src != src)
    ensures r.None? ==> forall j :: 0 <= j < |images| ==> images[j].src != src
    decreases |images|
  {
    if |images| == 0 then None
    else if images[0].src == src then Some(0)
    else match FindImage(images[1..], src)
      case None => None
      case Some(k) => Some(k + 1)
  }

  /**
   * `openImageModal(imageSrc, altText)` (script.js:582-599), with an unknown
   * source added as an entry `{src, name}` (see `Findings.OpenEntriesAsWritten` for what the
   * source pushes).
   */
  function OpenImageModal(d: Desk, src: string, alt: string): (r: Desk)
    ensures FindImage(d.images, src).Some? ==> (r.images == d.images
      && r.currentImageIndex == FindImage(d.images, src).value)
    ensures FindImage(d.images, src).None? ==> (r.images == d.images + [ProjectImage(src, alt)]
      && r.currentImageIndex == |d.images|)
    ensures r.modalOpen && Shown(r.imageViewer)
    ensures r.viewerImage == Some(r.images[r.currentImageIndex])
    ensures r.windows == d.windows && r.openTypes == d.openTypes && r.zIndexCounter == d.zIndexCounter
  {
    var showing := SelectImage(d, src, alt);
    showing.(imageViewer := Some(Overlay(true, showing.zIndexCounter + OverlayZOffset)), modalOpen := true)
  }

  /** The part of `openImageModal` before the overlay is displayed: build it, find or add the entry, show it. */
  function SelectImage(d: Desk, src: string, alt: string): (r: Desk)
    ensures FindImage(d.images, src).Some? ==> (r.images == d.images
      && r.currentImageIndex == FindImage(d.images, src).value)
    ensures FindImage(d.images, src).None? ==> (r.images == d.images + [ProjectImage(src, alt)]
      && r.currentImageIndex == |d.images|)
    ensures r.viewerImage == Some(r.images[r.currentImageIndex])
  {
    var built := EnsureImageViewer(d);
    var found := FindImage(built.images, src);
    var listed := if found.Some? then built else built.(images := built.images + [ProjectImage(src, alt)]);
    var idx := if found.Some? then found.value else |listed.images| - 1;
    ModUnique(idx, |listed.images|, 0, idx);
    ShowImageByIndex(listed, idx)
  }

  /** `closeImageModal()` (script.js:601-611). */
  function CloseImageModal(d: Desk): (r: Desk)
    ensures d.imageViewer.None? ==> r == d
    ensures d.imageViewer.Some? ==> !r.modalOpen && r.currentImageIndex == -1 && r.imageViewer.Some? && !Shown(r.imageViewer)
    ensures r.recipeViewer == d.recipeViewer && r.images == d.images && r.windows == d.windows
    ensures r == d.(imageViewer := r.imageViewer, modalOpen := r.modalOpen, currentImageIndex := r.currentImageIndex)
  {
    if d.imageViewer.None? then d
    else d.(imageViewer := Some(d.imageViewer.value.(shown := false)), modalOpen := false, currentImageIndex := -1)
  }

  // ---------------------------------------------------------------------------
  // The recipe viewer

  /** `createRecipeModalIfNeeded()`: builds the hidden overlay once and registers its key handler. */
  function EnsureRecipeViewer(d: Desk): (r: Desk)
    ensures r.recipeViewer.Some? && (d.recipeViewer.Some? ==> r == d)
  {
    if d.recipeViewer.Some? then d
    else d.(recipeViewer := Some(Overlay(false, d.zIndexCounter + OverlayZOffset)),
            keyHandlers := d.keyHandlers + [RecipeViewer])
  }

  /** `openRecipeModal()` (script.js:379-388) up to the fetch, whose results are `RecipeLoaded`/`RecipeFailed`. */
  function OpenRecipeModal(d: Desk): (r: Desk)
    ensures d.modalOpen ==> r == d
    ensures !d.modalOpen ==>
      r.modalOpen && Shown(r.recipeViewer) && r.recipeViewer.value.z == d.zIndexCounter + OverlayZOffset
    ensures r.windows == d.windows && r.openTypes == d.openTypes && r.imageViewer == d.imageViewer
    ensures r == d.(recipeViewer := r.recipeViewer, modalOpen := r.modalOpen, keyHandlers := r.keyHandlers)
  {
    if d.modalOpen then d
    else
      var built := EnsureRecipeViewer(d);
      built.(recipeViewer := Some(Overlay(true, built.zIndexCounter + OverlayZOffset)), modalOpen := true)
  }

  /** The fetch succeeded (script.js:395-398): the text is kept for download and rendered. */
  function RecipeLoaded(d: Desk, text: string): (r: Desk)
    ensures r.recipeBlob == Some(text) && r.recipeHtml == Markdown.Html(Markdown.Render(Markdown.MarkdownLines(text)))
    ensures r.modalOpen == d.modalOpen && r.recipeViewer == d.recipeViewer
    ensures r == d.(recipeBlob := r.recipeBlob, recipeHtml := r.recipeHtml)
  {
    d.(recipeBlob := Some(text), recipeHtml := Markdown.Html(Markdown.Render(Markdown.MarkdownLines(text))))
  }

  /** The page shown when the fetch fails; `message` is `String(err)`. */
  function FailureHtml(message: string): string {
    "<p><strong>Failed to load recipe.md</strong></p><pre>" + EscapeHtml(message) + "</pre>"
  }

  /** The fetch failed (script.js:399-403). */
  function RecipeFailed(d: Desk, message: string): (r: Desk)
    ensures r.recipeBlob == None && r.recipeHtml == FailureHtml(message)
    ensures r.modalOpen == d.modalOpen && r.recipeViewer == d.recipeViewer
    ensures r == d.(recipeBlob := r.recipeBlob, recipeHtml := r.recipeHtml)
  {
    d.(recipeHtml := FailureHtml(message), recipeBlob := None)
  }

  /** `closeRecipeModal()` (script.js:406-417). */
  function CloseRecipeModal(d: Desk): (r: Desk)
    ensures d.recipeViewer.None? ==> r == d
    ensures d.recipeViewer.Some? ==>
      !r.modalOpen && r.recipeViewer.Some? && !Shown(r.recipeViewer) && r.recipeHtml == "" && r.recipeBlob == None
    ensures r.imageViewer == d.imageViewer && r.currentImageIndex == d.currentImageIndex
    ensures r == d.(recipeViewer := r.recipeViewer, modalOpen := r.modalOpen, recipeHtml := r.recipeHtml,
                    recipeBlob := r.recipeBlob)
  {
    if d.recipeViewer.None? then d
    else d.(recipeViewer := Some(d.recipeViewer.value.(shown := false)), modalOpen := false,
            recipeHtml := "", recipeBlob := None)
  }

  // ---------------------------------------------------------------------------
  // Keyboard

  /** The `ev.key` values the handlers distinguish. */
  datatype Key = Escape | Esc | ArrowLeft | ArrowRight | OtherKey

  /** What a key press leaves alone: the windows, the counter and the image list. */
  predicate KeepsDesk(d: Desk, r: Desk) {
    r.windows == d.windows && r.openTypes == d.openTypes && r.zIndexCounter == d.zIndexCounter && r.images == d.images
  }

  /**
   * One viewer's `keydown` handler (script.js:533-547, 365-371), written so
   * that it acts only while its own viewer is displayed.  The source guards
   * both handlers by the shared flag instead: see `HandleAsWritten`.
   */
  function Handle(d: Desk, v: Viewer, key: Key): (r: Desk)
    ensures KeepsDesk(d, r)
    ensures v == ImageViewer && !Shown(d.imageViewer) ==> r == d
    ensures v == RecipeViewer && !Shown(d.recipeViewer) ==> r == d
  {
    match v
    case ImageViewer =>
      if !Shown(d.imageViewer) then d
      else if key == Escape || key == Esc then CloseImageModal(d)
      else if key == ArrowLeft then ShowPrevImage(d)
      else if key == ArrowRight then ShowNextImage(d)
      else d
    case RecipeViewer =>
      if !Shown(d.recipeViewer) then d
      else if key == Escape then CloseRecipeModal(d)
      else d
  }

  /** The registered handlers in order, on one key press. */
  function Dispatch(d: Desk, handlers: seq<Viewer>, key: Key): (r: Desk)
    ensures KeepsDesk(d, r)
    decreases |handlers|
  {
    if |handlers| == 0 then d else Dispatch(Handle(d, handlers[0], key), handlers[1..], key)
  }

  function KeyDown(d: Desk, key: Key): (r: Desk)
    ensures KeepsDesk(d, r)
  {
    Dispatch(d, d.keyHandlers, key)
  }

  /** One `keydown` handler as written: each returns early unless `imageModalOpen` is set. */
  function HandleAsWritten(d: Desk, v: Viewer, key: Key): (r: Desk)
    ensures KeepsDesk(d, r)
    ensures !d.modalOpen ==> r == d
  {
    if !d.modalOpen then d
    else match v
      case ImageViewer =>
        if key == Escape || key == Esc then CloseImageModal(d)
        else if key == ArrowLeft then ShowPrevImage(d)
        else if key == ArrowRight then ShowNextImage(d)
        else d
      case RecipeViewer =>
        if key == Escape then CloseRecipeModal(d) else d
  }

  function DispatchAsWritten(d: Desk, handlers: seq<Viewer>, key: Key): (r: Desk)
    ensures KeepsDesk(d, r)
    decreases |handlers|
  {
    if |handlers| == 0 then d else DispatchAsWritten(HandleAsWritten(d, handlers[0], key), handlers[1..], key)
  }

  function KeyDownAsWritten(d: Desk, key: Key): (r: Desk)
    ensures KeepsDesk(d, r)
  {
    DispatchAsWritten(d, d.keyHandlers, key)
  }

  // ---------------------------------------------------------------------------
  // The invariant

  /** A shown window is the first one of an open type; an open type has a window. */
  ghost predicate WindowsAgree(d: Desk) {
    (forall t :: t in d.openTypes ==> FindWindow(d.windows, t).Some?)
    && forall i :: 0 <= i < |d.windows| ==>
      (d.windows[i].shown <==> d.windows[i].kind in d.openTypes && FindWindow(d.windows, d.windows[i].kind) == Some(i))
  }

  /** The viewer's index is -1 or an entry, and then the viewer shows that entry. */
  ghost predicate ImageAgree(d: Desk) {
    -1 <= d.currentImageIndex < |d.images|
    && (d.currentImageIndex >= 0 ==> d.imageViewer.Some? && d.viewerImage == Some(d.images[d.currentImageIndex]))
  }

  /** Each built viewer has registered its handler exactly once. */
  ghost predicate HandlersAgree(d: Desk) {
    (d.imageViewer.Some? <==> ImageViewer in d.keyHandlers)
    && (d.recipeViewer.Some? <==> RecipeViewer in d.keyHandlers)
    && (forall i, j :: 0 <= i < j < |d.keyHandlers| ==> d.keyHandlers[i] != d.keyHandlers[j])
  }

  ghost predicate Valid(d: Desk) {
    WindowsAgree(d)
    && CountOpenWindows(d) <= MaxWindowsIncludingMain
    && (forall i :: 0 <= i < |d.windows| ==> d.windows[i].z <= d.zIndexCounter)
    && ImageAgree(d)
    && (d.modalOpen ==> Shown(d.imageViewer) || Shown(d.recipeViewer))
    && HandlersAgree(d)
  }
}
