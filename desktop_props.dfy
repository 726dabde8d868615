/**
 * Properties of the coordinator model: every operation keeps `Valid`, so in
 * particular at most four windows besides the main one are ever open; opening
 * and closing windows, raising them, and cycling through the images behave as
 * the source promises.
 */
module DesktopProperties {
  import opened Wrappers
  import opened Desktop
  import Markdown

  /** Two window lists with the same types at the same positions. */
  predicate SameKinds(ws: seq<Window>, vs: seq<Window>) {
    |ws| == |vs| && forall i :: 0 <= i < |ws| ==> ws[i].kind == vs[i].kind
  }

  lemma {:induction false} FindFromSameKinds(ws: seq<Window>, vs: seq<Window>, kind: string, start: nat)
    requires SameKinds(ws, vs) && start <= |ws|
    ensures FindFrom(ws, kind, start) == FindFrom(vs, kind, start)
    decreases |ws| - start
  {
    if start < |ws| && ws[start].kind != kind {
      FindFromSameKinds(ws, vs, kind, start + 1);
    }
  }

  /** Lookup by type depends only on the types. */
  lemma FindWindowSameKinds(ws: seq<Window>, vs: seq<Window>, kind: string)
    requires SameKinds(ws, vs)
    ensures FindWindow(ws, kind) == FindWindow(vs, kind)
  {
    FindFromSameKinds(ws, vs, kind, 0);
  }

  lemma InitialValid(kinds: seq<string>)
    ensures Valid(Initial(kinds))
  {
    var d := Initial(kinds);
    assert |d.openTypes| == 0;
  }

  // ---------------------------------------------------------------------------
  // Windows

  /** Raising a window keeps the invariant, and the window is then strictly above every other one. */
  lemma BringToFrontValid(d: Desk, i: nat)
    requires Valid(d) && i < |d.windows|
    ensures Valid(BringToFront(d, i))
    ensures var r := BringToFront(d, i);
      forall j :: 0 <= j < |r.windows| && j != i ==> r.windows[j].z < r.windows[i].z
  {
    var r := BringToFront(d, i);
    assert SameKinds(d.windows, r.windows);
    forall t ensures FindWindow(r.windows, t) == FindWindow(d.windows, t) {
      FindWindowSameKinds(d.windows, r.windows, t);
    }
    assert WindowsAgree(r) by {
      forall j | 0 <= j < |r.windows|
        ensures r.windows[j].shown <==> r.windows[j].kind in r.openTypes && FindWindow(r.windows, r.windows[j].kind) == Some(j)
      {
        assert r.windows[j].shown == d.windows[j].shown && r.windows[j].kind == d.windows[j].kind;
      }
    }
  }

  lemma ShowWindowAgree(d: Desk, kind: string, i: nat)
    requires WindowsAgree(d) && FindWindow(d.windows, kind) == Some(i) && kind !in d.openTypes
    ensures WindowsAgree(d.(windows := d.windows[i := d.windows[i].(shown := true)], openTypes := d.openTypes + {kind}))
  {
    var s := d.(windows := d.windows[i := d.windows[i].(shown := true)], openTypes := d.openTypes + {kind});
    assert SameKinds(d.windows, s.windows);
    forall t | t in s.openTypes ensures FindWindow(s.windows, t).Some? {
      FindWindowSameKinds(d.windows, s.windows, t);
    }
    forall j | 0 <= j < |s.windows|
      ensures s.windows[j].shown <==> s.windows[j].kind in s.openTypes && FindWindow(s.windows, s.windows[j].kind) == Some(j)
    {
      FindWindowSameKinds(d.windows, s.windows, s.windows[j].kind);
      if j != i {
        assert s.windows[j] == d.windows[j];
      }
    }
  }

  /** Displaying the first window of a type that is not open, while fewer than four are, keeps the invariant. */
  lemma ShowWindowValid(d: Desk, kind: string, i: nat)
    requires Valid(d) && FindWindow(d.windows, kind) == Some(i)
    requires kind !in d.openTypes && CountOpenWindows(d) < MaxWindowsIncludingMain
    ensures Valid(d.(windows := d.windows[i := d.windows[i].(shown := true)], openTypes := d.openTypes + {kind}))
  {
    var s := d.(windows := d.windows[i := d.windows[i].(shown := true)], openTypes := d.openTypes + {kind});
    ShowWindowAgree(d, kind, i);
    forall j | 0 <= j < |s.windows| ensures s.windows[j].z <= s.zIndexCounter {
      assert s.windows[j].z == d.windows[j].z;
    }
    assert |s.openTypes| == |d.openTypes| + 1;
    assert ImageAgree(s) && HandlersAgree(s) by {
      assert s.images == d.images && s.keyHandlers == d.keyHandlers;
    }
  }

  lemma OpenWindowValid(d: Desk, kind: string)
    requires Valid(d)
    ensures Valid(OpenWindow(d, kind).desk)
  {
    match FindWindow(d.windows, kind)
    case None =>
    case Some(i) =>
      if !d.modalOpen && kind in d.openTypes {
        BringToFrontValid(d, i);
      } else if !d.modalOpen && CountOpenWindows(d) < MaxWindowsIncludingMain {
        ShowWindowValid(d, kind, i);
        BringToFrontValid(d.(windows := d.windows[i := d.windows[i].(shown := true)], openTypes := d.openTypes + {kind}), i);
      }
  }

  lemma CloseWindowValid(d: Desk, kind: string)
    requires Valid(d)
    ensures Valid(CloseWindow(d, kind))
  {
    match FindWindow(d.windows, kind)
    case None =>
    case Some(i) =>
      var r := CloseWindow(d, kind);
      assert SameKinds(d.windows, r.windows);
      forall t ensures FindWindow(r.windows, t) == FindWindow(d.windows, t) {
        FindWindowSameKinds(d.windows, r.windows, t);
      }
      assert WindowsAgree(r) by {
        forall j | 0 <= j < |r.windows|
          ensures r.windows[j].shown <==> r.windows[j].kind in r.openTypes && FindWindow(r.windows, r.windows[j].kind) == Some(j)
        {
          if j != i {
            assert r.windows[j] == d.windows[j];
          }
        }
      }
      assert r.openTypes <= d.openTypes;
      assert |r.openTypes| <= |d.openTypes| by {
        SubsetCard(r.openTypes, d.openTypes);
      }
  }

  lemma SubsetCard<T>(a: set<T>, b: set<T>)
    requires a <= b
    ensures |a| <= |b|
  {
    assert b == a + (b - a);
  }

  /**
   * Trying to open a type that is not open and then closing it leaves the set of
   * open types as it was, whatever the attempt did; a window that was opened is
   * hidden again.
   */
  lemma OpenThenClose(d: Desk, kind: string)
    requires kind !in d.openTypes
    ensures var o := OpenWindow(d, kind);
      var r := CloseWindow(o.desk, kind);
      r.openTypes == d.openTypes
      && (o.outcome == Opened ==> !r.windows[FindWindow(d.windows, kind).value].shown)
  {
    var o := OpenWindow(d, kind);
    if o.outcome == Opened {
      assert SameKinds(d.windows, o.desk.windows) by {
        var i := FindWindow(d.windows, kind).value;
        var s := d.(windows := d.windows[i := d.windows[i].(shown := true)], openTypes := d.openTypes + {kind});
        assert o.desk == BringToFront(s, i);
      }
      FindWindowSameKinds(d.windows, o.desk.windows, kind);
    } else {
      assert o.desk == d;
    }
  }

  /** Closing twice is closing once. */
  lemma CloseWindowIdempotent(d: Desk, kind: string)
    ensures CloseWindow(CloseWindow(d, kind), kind) == CloseWindow(d, kind)
  {
    var r := CloseWindow(d, kind);
    match FindWindow(d.windows, kind)
    case None =>
    case Some(i) =>
      assert SameKinds(d.windows, r.windows);
      FindWindowSameKinds(d.windows, r.windows, kind);
      assert r.windows[i := r.windows[i].(shown := false)] == r.windows;
      assert r.openTypes - {kind} == r.openTypes;
  }

  /** Closing a type changes nothing about the other open types. */
  lemma CloseWindowOnlyThat(d: Desk, kind: string, other: string)
    requires other != kind
    ensures other in CloseWindow(d, kind).openTypes <==> other in d.openTypes
  {}

  /** Opening a type that is already open, or opening one twice, raises it and leaves the open set alone. */
  lemma ReopenRaises(d: Desk, kind: string)
    requires Valid(d) && OpenWindow(d, kind).outcome in {Raised, Opened}
    ensures var o := OpenWindow(d, kind).desk;
      var r := OpenWindow(o, kind);
      r.outcome == Raised && r.desk.openTypes == o.openTypes && r.desk.zIndexCounter == o.zIndexCounter + 1
      && r.desk == BringToFront(o, FindWindow(d.windows, kind).value)
  {
    var o := OpenWindow(d, kind).desk;
    OpenWindowValid(d, kind);
    assert SameKinds(d.windows, o.windows) by {
      var i := FindWindow(d.windows, kind).value;
      if OpenWindow(d, kind).outcome == Opened {
        var s := d.(windows := d.windows[i := d.windows[i].(shown := true)], openTypes := d.openTypes + {kind});
        assert o == BringToFront(s, i);
      } else {
        assert o == BringToFront(d, i);
      }
    }
    FindWindowSameKinds(d.windows, o.windows, kind);
    assert !o.modalOpen;
  }

  /** With four windows open besides the main one, a fifth type is refused and nothing changes. */
  lemma FullDeskRejects(d: Desk, kind: string)
    requires Valid(d) && |d.openTypes| == 4 && kind !in d.openTypes
    requires FindWindow(d.windows, kind).Some? && !d.modalOpen
    ensures OpenWindow(d, kind) == OpenResult(d, Rejected)
  {}

  /** While a modal is open no window opens or rises. */
  lemma ModalBlocksOpen(d: Desk, kind: string)
    requires d.modalOpen
    ensures OpenWindow(d, kind).desk == d
  {}

  // ---------------------------------------------------------------------------
  // Images

  lemma ShowImageByIndexValid(d: Desk, index: int)
    requires Valid(d)
    ensures Valid(ShowImageByIndex(d, index))
  {
    var r := ShowImageByIndex(d, index);
    if |d.images| > 0 {
      assert r.windows == d.windows && r.openTypes == d.openTypes;
      assert WindowsAgree(r);
      assert r.recipeViewer == d.recipeViewer;
      assert d.imageViewer.Some? ==> r.imageViewer == d.imageViewer;
    }
  }

  lemma ShowPrevNextValid(d: Desk)
    requires Valid(d)
    ensures Valid(ShowPrevImage(d)) && Valid(ShowNextImage(d))
  {
    if d.currentImageIndex != -1 {
      ShowImageByIndexValid(d, d.currentImageIndex - 1);
      ShowImageByIndexValid(d, d.currentImageIndex + 1);
    }
  }

  /** `n` presses of "next". */
  function NextTimes(d: Desk, n: nat): Desk
    decreases n
  {
    if n == 0 then d else ShowNextImage(NextTimes(d, n - 1))
  }

  /** One "next" press from a shown entry moves to the following entry, wrapping at the end. */
  lemma NextStep(d: Desk, k: int)
    requires |d.images| > 0 && d.currentImageIndex == k % |d.images|
    ensures var r := ShowNextImage(d);
      r.images == d.images && r.currentImageIndex == (k + 1) % |d.images|
      && r.viewerImage == Some(d.images[r.currentImageIndex])
  {
    var len := |d.images|;
    var i := d.currentImageIndex;
    var q := k / len;
    assert k == q * len + i;
    if i + 1 < len {
      ModUnique(i + 1, len, 0, i + 1);
      ModUnique(k + 1, len, q, i + 1);
    } else {
      ModUnique(i + 1, len, 1, 0);
      ModUnique(k + 1, len, q + 1, 0);
    }
  }

  lemma {:induction false} NextTimesIndex(d: Desk, n: nat)
    requires 0 <= d.currentImageIndex < |d.images|
    ensures var r := NextTimes(d, n);
      r.images == d.images && r.currentImageIndex == (d.currentImageIndex + n) % |d.images|
      && (n > 0 ==> r.viewerImage == Some(d.images[r.currentImageIndex]))
    decreases n
  {
    if n == 0 {
      ModUnique(d.currentImageIndex, |d.images|, 0, d.currentImageIndex);
    } else {
      NextTimesIndex(d, n - 1);
      NextTimesStep(d, n);
    }
  }

  /** The inductive step of `NextTimesIndex`. */
  lemma NextTimesStep(d: Desk, n: nat)
    requires n > 0 && 0 <= d.currentImageIndex < |d.images|
    requires NextTimes(d, n - 1).images == d.images
    requires NextTimes(d, n - 1).currentImageIndex == (d.currentImageIndex + (n - 1)) % |d.images|
    ensures var r := NextTimes(d, n);
      r.images == d.images && r.currentImageIndex == (d.currentImageIndex + n) % |d.images|
      && r.viewerImage == Some(d.images[r.currentImageIndex])
  {
    var p := NextTimes(d, n - 1);
    var k := d.currentImageIndex + (n - 1);
    NextStep(p, k);
    assert NextTimes(d, n) == ShowNextImage(p);
    assert k + 1 == d.currentImageIndex + n;
  }

  /** As many "next" presses as there are images come back to the image shown at the start. */
  lemma {:induction false} NextCycle(d: Desk)
    requires 0 <= d.currentImageIndex < |d.images|
    ensures NextTimes(d, |d.images|).currentImageIndex == d.currentImageIndex
  {
    NextTimesIndex(d, |d.images|);
    ModUnique(d.currentImageIndex + |d.images|, |d.images|, 1, d.currentImageIndex);
  }

  /** "Previous" from the first image wraps round to the last. */
  lemma PrevFromFirst(d: Desk)
    requires |d.images| > 0 && d.currentImageIndex == 0
    ensures ShowPrevImage(d).currentImageIndex == |d.images| - 1
  {
    ModUnique(-1, |d.images|, -1, |d.images| - 1);
  }

  /** "Previous" undoes "next". */
  lemma PrevAfterNext(d: Desk)
    requires 0 <= d.currentImageIndex < |d.images|
    ensures ShowPrevImage(ShowNextImage(d)).currentImageIndex == d.currentImageIndex
  {
    var len := |d.images|;
    var i := d.currentImageIndex;
    if i + 1 < len {
      ModUnique(i + 1, len, 0, i + 1);
      ModUnique(i, len, 0, i);
    } else {
      ModUnique(i + 1, len, 1, 0);
      ModUnique(-1, len, -1, len - 1);
    }
  }

  lemma EnsureImageViewerValid(d: Desk)
    requires Valid(d)
    ensures Valid(EnsureImageViewer(d))
  {
    var r := EnsureImageViewer(d);
    if d.imageViewer.None? {
      assert WindowsAgree(r) by {
        assert r.windows == d.windows && r.openTypes == d.openTypes;
      }
      assert ImageViewer !in d.keyHandlers;
    }
  }

  /** Adding an entry to the image list keeps the invariant. */
  lemma AddImageValid(d: Desk, image: ProjectImage)
    requires Valid(d)
    ensures Valid(d.(images := d.images + [image]))
  {
    var r := d.(images := d.images + [image]);
    assert WindowsAgree(r) by {
      assert r.windows == d.windows && r.openTypes == d.openTypes;
    }
    assert ImageAgree(r) by {
      if d.currentImageIndex >= 0 {
        assert r.images[d.currentImageIndex] == d.images[d.currentImageIndex];
      }
    }
  }

  lemma SelectImageValid(d: Desk, src: string, alt: string)
    requires Valid(d)
    ensures Valid(SelectImage(d, src, alt))
  {
    var built := EnsureImageViewer(d);
    EnsureImageViewerValid(d);
    var found := FindImage(built.images, src);
    var listed := if found.Some? then built else built.(images := built.images + [ProjectImage(src, alt)]);
    AddImageValid(built, ProjectImage(src, alt));
    var idx := if found.Some? then found.value else |listed.images| - 1;
    ShowImageByIndexValid(listed, idx);
    ModUnique(idx, |listed.images|, 0, idx);
    assert SelectImage(d, src, alt) == ShowImageByIndex(listed, idx);
  }

  /** `SelectImage` shows entry `idx` of the list it has built, whichever way that list was reached. */
  lemma SelectImageShows(d: Desk, src: string, alt: string, listed: Desk, idx: int)
    requires listed == (var built := EnsureImageViewer(d);
      if FindImage(built.images, src).Some? then built else built.(images := built.images + [ProjectImage(src, alt)]))
    requires idx == (var found := FindImage(EnsureImageViewer(d).images, src);
      if found.Some? then found.value else |listed.images| - 1)
    ensures SelectImage(d, src, alt) == ShowImageByIndex(listed, idx)
  {
  }

  lemma OpenImageModalValid(d: Desk, src: string, alt: string)
    requires Valid(d)
    ensures Valid(OpenImageModal(d, src, alt))
  {
    var s := SelectImage(d, src, alt);
    SelectImageValid(d, src, alt);
    var r := OpenImageModal(d, src, alt);
    assert r == s.(imageViewer := Some(Overlay(true, s.zIndexCounter + OverlayZOffset)), modalOpen := true);
    assert WindowsAgree(r) by {
      assert r.windows == s.windows && r.openTypes == s.openTypes;
    }
    assert s.imageViewer.Some?;
  }

  /** Opening the same image twice adds it at most once, and selects the same entry both times. */
  lemma ReopenSameImage(d: Desk, src: string, alt: string)
    ensures var once := OpenImageModal(d, src, alt);
      var twice := OpenImageModal(once, src, alt);
      twice.images == once.images && twice.currentImageIndex == once.currentImageIndex
  {
    var once := OpenImageModal(d, src, alt);
    if FindImage(d.images, src).None? {
      var k := FindImage(once.images, src);
      assert once.images[|d.images|].src == src;
      assert k.Some? && k.value == |d.images|;
    }
  }

  lemma CloseImageModalValid(d: Desk)
    requires Valid(d)
    ensures Valid(CloseImageModal(d))
  {
    var r := CloseImageModal(d);
    assert WindowsAgree(r) by {
      assert r.windows == d.windows && r.openTypes == d.openTypes;
    }
  }

  // ---------------------------------------------------------------------------
  // The recipe viewer

  lemma OpenRecipeModalValid(d: Desk)
    requires Valid(d)
    ensures Valid(OpenRecipeModal(d))
  {
    var r := OpenRecipeModal(d);
    assert WindowsAgree(r) by {
      assert r.windows == d.windows && r.openTypes == d.openTypes;
    }
    if !d.modalOpen && d.recipeViewer.None? {
      assert RecipeViewer !in d.keyHandlers;
      assert r.keyHandlers == d.keyHandlers + [RecipeViewer];
    }
  }

  lemma CloseRecipeModalValid(d: Desk)
    requires Valid(d)
    ensures Valid(CloseRecipeModal(d))
  {
    var r := CloseRecipeModal(d);
    assert WindowsAgree(r) by {
      assert r.windows == d.windows && r.openTypes == d.openTypes;
    }
  }

  /** The invariant does not look at the recipe text or the download. */
  lemma RecipeTextIrrelevant(d: Desk, html: string, blob: Option<string>)
    requires Valid(d)
    ensures Valid(d.(recipeHtml := html, recipeBlob := blob))
  {
    var r := d.(recipeHtml := html, recipeBlob := blob);
    assert WindowsAgree(r) by { assert r.windows == d.windows && r.openTypes == d.openTypes; }
  }

  lemma RecipeLoadedValid(d: Desk, text: string)
    requires Valid(d)
    ensures Valid(RecipeLoaded(d, text))
  {
    RecipeTextIrrelevant(d, Markdown.Html(Markdown.Render(Markdown.MarkdownLines(text))), Some(text));
  }

  lemma RecipeFailedValid(d: Desk, message: string)
    requires Valid(d)
    ensures Valid(RecipeFailed(d, message))
  {
    RecipeTextIrrelevant(d, FailureHtml(message), None);
  }

  // ---------------------------------------------------------------------------
  // Keyboard

  lemma {:induction false} HandleValid(d: Desk, v: Viewer, key: Key)
    requires Valid(d)
    ensures Valid(Handle(d, v, key))
  {
    match v
    case ImageViewer =>
      if Shown(d.imageViewer) {
        if key == Escape || key == Esc {
          CloseImageModalValid(d);
        } else if key == ArrowLeft || key == ArrowRight {
          ShowPrevNextValid(d);
        }
      }
    case RecipeViewer =>
      if Shown(d.recipeViewer) && key == Escape {
        CloseRecipeModalValid(d);
      }
  }

  lemma {:induction false} DispatchValid(d: Desk, handlers: seq<Viewer>, key: Key)
    requires Valid(d)
    ensures Valid(Dispatch(d, handlers, key))
    decreases |handlers|
  {
    if |handlers| > 0 {
      HandleValid(d, handlers[0], key);
      DispatchValid(Handle(d, handlers[0], key), handlers[1..], key);
    }
  }

  /** The handlers as written keep the invariant too: each runs one operation that keeps it. */
  lemma {:induction false} HandleAsWrittenValid(d: Desk, v: Viewer, key: Key)
    requires Valid(d)
    ensures Valid(HandleAsWritten(d, v, key))
  {
    if d.modalOpen {
      match v
      case ImageViewer =>
        if key == Escape || key == Esc {
          CloseImageModalValid(d);
        } else if key == ArrowLeft || key == ArrowRight {
          ShowPrevNextValid(d);
        }
      case RecipeViewer =>
        if key == Escape {
          CloseRecipeModalValid(d);
        }
    }
  }

  lemma {:induction false} DispatchAsWrittenValid(d: Desk, handlers: seq<Viewer>, key: Key)
    requires Valid(d)
    ensures Valid(DispatchAsWritten(d, handlers, key))
    decreases |handlers|
  {
    if |handlers| > 0 {
      HandleAsWrittenValid(d, handlers[0], key);
      DispatchAsWrittenValid(HandleAsWritten(d, handlers[0], key), handlers[1..], key);
    }
  }

  /** Clicking or starting to drag a window keeps the invariant, and a displayed window ends up above every other. */
  lemma RaiseWindowValid(d: Desk, i: nat)
    requires Valid(d) && i < |d.windows|
    ensures Valid(RaiseWindow(d, i))
    ensures var r := RaiseWindow(d, i);
      d.windows[i].shown ==> forall j :: 0 <= j < |r.windows| && j != i ==> r.windows[j].z < r.windows[i].z
  {
    if d.windows[i].shown {
      BringToFrontValid(d, i);
    }
  }

  // ---------------------------------------------------------------------------
  // Any sequence of user actions

  /** What a user (or a page script through `window.__pixelPortfolio`) can do. */
  datatype Event =
    | OpenWin(kind: string)
    | CloseWin(kind: string)
    | ClickPrev
    | ClickNext
    | OpenImage(src: string, alt: string)
    | CloseImage
    | OpenRecipe
    | CloseRecipe
    | RecipeArrived(text: string)
    | RecipeError(message: string)
    | KeyPress(key: Key)
    | KeyPressAsWritten(key: Key)
    | Raise(index: nat)

  /**
   * One event; a fetch result only arrives once the recipe viewer exists, and a
   * click lands on one of the page's windows.  `KeyPress` runs the handlers as
   * corrected, `KeyPressAsWritten` as the source has them.
   */
  function Apply(d: Desk, e: Event): Desk {
    match e
    case OpenWin(t) => OpenWindow(d, t).desk
    case CloseWin(t) => CloseWindow(d, t)
    case ClickPrev => ShowPrevImage(d)
    case ClickNext => ShowNextImage(d)
    case OpenImage(src, alt) => OpenImageModal(d, src, alt)
    case CloseImage => CloseImageModal(d)
    case OpenRecipe => OpenRecipeModal(d)
    case CloseRecipe => CloseRecipeModal(d)
    case RecipeArrived(text) => if d.recipeViewer.Some? then RecipeLoaded(d, text) else d
    case RecipeError(message) => if d.recipeViewer.Some? then RecipeFailed(d, message) else d
    case KeyPress(key) => KeyDown(d, key)
    case KeyPressAsWritten(key) => KeyDownAsWritten(d, key)
    case Raise(i) => if i < |d.windows| then RaiseWindow(d, i) else d
  }

  function ApplyAll(d: Desk, es: seq<Event>): Desk
    decreases |es|
  {
    if |es| == 0 then d else ApplyAll(Apply(d, es[0]), es[1..])
  }

  lemma ApplyValid(d: Desk, e: Event)
    requires Valid(d)
    ensures Valid(Apply(d, e))
  {
    if e.OpenWin? || e.CloseWin? || e.ClickPrev? || e.ClickNext? || e.OpenImage? || e.Raise? {
      ApplyValidFirst(d, e);
    } else {
      ApplyValidRest(d, e);
    }
  }

  lemma ApplyValidFirst(d: Desk, e: Event)
    requires Valid(d) && (e.OpenWin? || e.CloseWin? || e.ClickPrev? || e.ClickNext? || e.OpenImage? || e.Raise?)
    ensures Valid(Apply(d, e))
  {
    match e
    case OpenWin(t) => OpenWindowValid(d, t);
    case CloseWin(t) => CloseWindowValid(d, t);
    case ClickPrev => ShowPrevNextValid(d);
    case ClickNext => ShowPrevNextValid(d);
    case OpenImage(src, alt) => OpenImageModalValid(d, src, alt);
    case Raise(i) =>
      if i < |d.windows| {
        RaiseWindowValid(d, i);
      }
  }

  lemma {:induction false} ApplyValidRest(d: Desk, e: Event)
    requires Valid(d) && !(e.OpenWin? || e.CloseWin? || e.ClickPrev? || e.ClickNext? || e.OpenImage? || e.Raise?)
    ensures Valid(Apply(d, e))
  {
    match e
    case CloseImage => CloseImageModalValid(d);
    case OpenRecipe => OpenRecipeModalValid(d);
    case CloseRecipe => CloseRecipeModalValid(d);
    case RecipeArrived(text) => RecipeLoadedValid(d, text);
    case RecipeError(message) => RecipeFailedValid(d, message);
    case KeyPress(key) => DispatchValid(d, d.keyHandlers, key);
    case KeyPressAsWritten(key) => DispatchAsWrittenValid(d, d.keyHandlers, key);
  }

  lemma {:induction false} ApplyAllValid(d: Desk, es: seq<Event>)
    requires Valid(d)
    ensures Valid(ApplyAll(d, es))
    decreases |es|
  {
    if |es| > 0 {
      ApplyValid(d, es[0]);
      ApplyAllValid(Apply(d, es[0]), es[1..]);
    }
  }

  /**
   * After any sequence of the events above from page load (with either version
   * of the key handlers), at most four windows besides the main one are open, every shown window is the first of an open type, no window is
   * above the counter, and the image index is -1 or a valid entry.
   */
  lemma AlwaysValid(kinds: seq<string>, es: seq<Event>)
    ensures var d := ApplyAll(Initial(kinds), es);
      Valid(d) && |d.openTypes| <= 4 && -1 <= d.currentImageIndex < |d.images|
  {
    InitialValid(kinds);
    ApplyAllValid(Initial(kinds), es);
  }
}
