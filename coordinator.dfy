/**
 * The coordinator as an object: its fields are the closure variables of
 * script.js (script.js:198-205, 431-439) and its methods update them step by
 * step, in the source's order.  Every method is proved to leave the object in
 * the state the matching `Desktop` function computes, so the properties proved
 * about the functions hold of the object.  Every method that changes the
 * object, except the two `Create...IfNeeded` ones, also keeps `Desktop.Valid`; those two state only their
 * effect, because `showImageByIndex` builds the viewer after it has already
 * moved the index, in a state the invariant does not describe.
 *
 * The image list is updated in its corrected form (an unknown image is added
 * as an entry `{src, name}`, see `Findings`); the key handlers are here both as
 * corrected (`HandleKey`, `KeyDown`) and as written (`HandleKeyAsWritten`,
 * `KeyDownAsWritten`).
 */
module Coordination {
  import opened Wrappers
  import opened WindowTypes
  import opened Desktop
  import DesktopProperties
  import Markdown

  /** The types `detectType` gives the page's windows, by position. */
  function KindsOf(titles: seq<Option<TitleImage>>): seq<string> {
    seq(|titles|, i requires 0 <= i < |titles| => DetectType(titles[i], i))
  }

  /** `windows.forEach((win, idx) => ...)` at set-up: type each window by `detectType` and hide it at z-index 0. */
  method SetUpWindows(titles: seq<Option<TitleImage>>) returns (ws: seq<Window>)
    ensures ws == Initial(KindsOf(titles)).windows
  {
    ws := [];
    var idx := 0;
    while idx < |titles|
      invariant 0 <= idx <= |titles| && |ws| == idx
      invariant forall j :: 0 <= j < idx ==> ws[j] == Window(DetectType(titles[j], j), false, 0)
    {
      var kind := DetectType(titles[idx], idx);
      ws := ws + [Window(kind, false, 0)];
      idx := idx + 1;
    }
    var kinds := KindsOf(titles);
    assert forall j :: 0 <= j < |ws| ==> ws[j] == Initial(kinds).windows[j];
  }

  class Coordinator {
    var windows: seq<Window>
    var openTypes: set<string>
    var zIndexCounter: int
    var imageModalOpen: bool
    var modalOverlay: Option<Overlay>
    var viewerImage: Option<ProjectImage>
    var projectImages: seq<ProjectImage>
    var currentImageIndex: int
    var recipeModal: Option<Overlay>
    var recipeContent: string
    var recipeDownload: Option<string>
    var keyHandlers: seq<Viewer>

    /** The fields as one `Desktop.Desk` value. */
    function State(): Desk
      reads this
    {
      Desk(windows, openTypes, zIndexCounter, imageModalOpen, modalOverlay, viewerImage, projectImages,
        currentImageIndex, recipeModal, recipeContent, recipeDownload, keyHandlers)
    }

    ghost predicate Valid()
      reads this
    {
      Desktop.Valid(State())
    }

    /** Page set-up: each window gets the type `detectType` finds for it and starts hidden at z-index 0. */
    constructor (titles: seq<Option<TitleImage>>)
      ensures State() == Initial(KindsOf(titles))
      ensures Valid()
    {
      var ws := SetUpWindows(titles);
      windows := ws;
      openTypes := {};
      zIndexCounter := InitialZIndex;
      imageModalOpen := false;
      modalOverlay := None;
      viewerImage := None;
      projectImages := InitialImages;
      currentImageIndex := -1;
      recipeModal := None;
      recipeContent := "";
      recipeDownload := None;
      keyHandlers := [];
      new;
      DesktopProperties.InitialValid(KindsOf(titles));
    }

    /** `getWindowByType(type)`: the position of the first window of that type. */
    method GetWindowByType(kind: string) returns (w: Option<nat>)
      ensures w == FindWindow(windows, kind)
    {
      var i := 0;
      while i < |windows|
        invariant 0 <= i <= |windows|
        invariant FindFrom(windows, kind, i) == FindWindow(windows, kind)
      {
        if windows[i].kind == kind {
          return Some(i);
        }
        i := i + 1;
      }
      return None;
    }

    /** `bringToFront(winEl)`. */
    method BringToFront(i: nat)
      requires Valid() && i < |windows|
      modifies this
      ensures State() == Desktop.BringToFront(old(State()), i)
      ensures Valid()
    {
      DesktopProperties.BringToFrontValid(State(), i);
      zIndexCounter := zIndexCounter + 1;
      windows := windows[i := windows[i].(z := zIndexCounter)];
    }

    /** `openWindow(type)`, reporting which of its exits it took. */
    method OpenWindow(kind: string) returns (outcome: OpenOutcome)
      requires Valid()
      modifies this
      ensures OpenResult(State(), outcome) == Desktop.OpenWindow(old(State()), kind)
      ensures Valid()
    {
      DesktopProperties.OpenWindowValid(State(), kind);
      var w := GetWindowByType(kind);
      if w.None? {
        return NoSuchWindow;
      }
      if imageModalOpen {
        return BlockedByModal;
      }
      var i := w.value;
      if kind in openTypes {
        BringToFront(i);
        return Raised;
      }
      if CountOpenWindows(State()) >= MaxWindowsIncludingMain {
        return Rejected;
      }
      DesktopProperties.ShowWindowValid(State(), kind, i);
      windows := windows[i := windows[i].(shown := true)];
      openTypes := openTypes + {kind};
      BringToFront(i);
      return Opened;
    }

    /**
     * A click on a window raises it when it is displayed.  A drag start on the window
     * takes the same step, but only while no modal is open and the pointer is not on a control.
     */
    method RaiseWindow(i: nat)
      requires Valid() && i < |windows|
      modifies this
      ensures State() == Desktop.RaiseWindow(old(State()), i)
      ensures Valid()
    {
      if windows[i].shown {
        BringToFront(i);
      }
    }

    /** `closeWindow(type)`. */
    method CloseWindow(kind: string)
      requires Valid()
      modifies this
      ensures State() == Desktop.CloseWindow(old(State()), kind)
      ensures Valid()
    {
      DesktopProperties.CloseWindowValid(State(), kind);
      var w := GetWindowByType(kind);
      if w.None? {
        return;
      }
      var i := w.value;
      windows := windows[i := windows[i].(shown := false)];
      openTypes := openTypes - {kind};
    }

    /** `createImageModalIfNeeded()`. */
    method CreateImageModalIfNeeded()
      modifies this
      ensures State() == EnsureImageViewer(old(State()))
    {
      if modalOverlay.Some? {
        return;
      }
      modalOverlay := Some(Overlay(false, zIndexCounter + OverlayZOffset));
      keyHandlers := keyHandlers + [ImageViewer];
    }

    /** `showImageByIndex(index)`. */
    method ShowImageByIndex(index: int)
      requires Valid()
      modifies this
      ensures State() == Desktop.ShowImageByIndex(old(State()), index)
      ensures Valid()
    {
      DesktopProperties.ShowImageByIndexValid(State(), index);
      if |projectImages| == 0 {
        return;
      }
      var len := |projectImages|;
      var idx := JsRem(JsRem(index, len) + len, len);
      NormalizeIndexIsModulo(index, len);
      currentImageIndex := idx;
      CreateImageModalIfNeeded();
      viewerImage := Some(projectImages[idx]);
    }

    /** `showPrevImage()`. */
    method ShowPrevImage()
      requires Valid()
      modifies this
      ensures State() == Desktop.ShowPrevImage(old(State()))
      ensures Valid()
    {
      DesktopProperties.ShowPrevNextValid(State());
      if currentImageIndex == -1 {
        return;
      }
      ShowImageByIndex(currentImageIndex - 1);
    }

    /** `showNextImage()`. */
    method ShowNextImage()
      requires Valid()
      modifies this
      ensures State() == Desktop.ShowNextImage(old(State()))
      ensures Valid()
    {
      DesktopProperties.ShowPrevNextValid(State());
      if currentImageIndex == -1 {
        return;
      }
      ShowImageByIndex(currentImageIndex + 1);
    }

    /** `PROJECT_IMAGES.findIndex(p => p.src === src)`: -1 when no entry has that source. */
    method FindImageIndex(src: string) returns (idx: int)
      ensures FindImage(projectImages, src).Some? ==> idx == FindImage(projectImages, src).value
      ensures FindImage(projectImages, src).None? <==> idx == -1
    {
      var i := 0;
      while i < |projectImages|
        invariant 0 <= i <= |projectImages|
        invariant forall j :: 0 <= j < i ==> projectImages[j].src != src
      {
        if projectImages[i].src == src {
          return i;
        }
        i := i + 1;
      }
      return -1;
    }

    /** The first half of `openImageModal(src, alt)`, with an unknown source added as an entry `{src, name: alt}`. */
    method SelectImage(src: string, alt: string)
      requires Valid()
      modifies this
      ensures State() == Desktop.SelectImage(old(State()), src, alt)
      ensures Valid()
    {
      DesktopProperties.EnsureImageViewerValid(State());
      CreateImageModalIfNeeded();
      var idx := FindImageIndex(src);
      if idx < 0 {
        DesktopProperties.AddImageValid(State(), ProjectImage(src, alt));
        projectImages := projectImages + [ProjectImage(src, alt)];
        idx := |projectImages| - 1;
      }
      ghost var listed := State();
      DesktopProperties.SelectImageShows(old(State()), src, alt, listed, idx);
      ShowImageByIndex(idx);
    }

    /** `openImageModal(src, alt)`. */
    method OpenImageModal(src: string, alt: string)
      requires Valid()
      modifies this
      ensures State() == Desktop.OpenImageModal(old(State()), src, alt)
      ensures Valid()
    {
      DesktopProperties.OpenImageModalValid(State(), src, alt);
      SelectImage(src, alt);
      modalOverlay := Some(Overlay(true, zIndexCounter + OverlayZOffset));
      imageModalOpen := true;
    }

    /** `closeImageModal()`. */
    method CloseImageModal()
      requires Valid()
      modifies this
      ensures State() == Desktop.CloseImageModal(old(State()))
      ensures Valid()
    {
      DesktopProperties.CloseImageModalValid(State());
      if modalOverlay.None? {
        return;
      }
      modalOverlay := Some(modalOverlay.value.(shown := false));
      imageModalOpen := false;
      currentImageIndex := -1;
    }

    /** `createRecipeModalIfNeeded()`. */
    method CreateRecipeModalIfNeeded()
      modifies this
      ensures State() == EnsureRecipeViewer(old(State()))
    {
      if recipeModal.Some? {
        return;
      }
      recipeModal := Some(Overlay(false, zIndexCounter + OverlayZOffset));
      keyHandlers := keyHandlers + [RecipeViewer];
    }

    /** `openRecipeModal()` up to the fetch, whose outcome arrives as `RecipeLoaded` or `RecipeFailed`. */
    method OpenRecipeModal()
      requires Valid()
      modifies this
      ensures State() == Desktop.OpenRecipeModal(old(State()))
      ensures Valid()
    {
      DesktopProperties.OpenRecipeModalValid(State());
      if imageModalOpen {
        return;
      }
      CreateRecipeModalIfNeeded();
      recipeModal := Some(Overlay(true, zIndexCounter + OverlayZOffset));
      imageModalOpen := true;
    }

    /** The fetch delivered `text`: keep it for download and render it. */
    method RecipeLoaded(text: string)
      requires Valid()
      modifies this
      ensures State() == Desktop.RecipeLoaded(old(State()), text)
      ensures Valid()
    {
      var html := Markdown.RenderMarkdown(text);
      ShowRecipe(html, Some(text));
    }

    /** Puts a page into the recipe viewer and keeps `blob` for the download button. */
    method ShowRecipe(html: string, blob: Option<string>)
      requires Valid()
      modifies this
      ensures State() == old(State()).(recipeHtml := html, recipeBlob := blob)
      ensures Valid()
    {
      DesktopProperties.RecipeTextIrrelevant(State(), html, blob);
      recipeDownload := blob;
      recipeContent := html;
    }

    /** The fetch failed with `message`. */
    method RecipeFailed(message: string)
      requires Valid()
      modifies this
      ensures State() == Desktop.RecipeFailed(old(State()), message)
      ensures Valid()
    {
      ShowRecipe(FailureHtml(message), None);
    }

    /** `closeRecipeModal()`. */
    method CloseRecipeModal()
      requires Valid()
      modifies this
      ensures State() == Desktop.CloseRecipeModal(old(State()))
      ensures Valid()
    {
      DesktopProperties.CloseRecipeModalValid(State());
      if recipeModal.None? {
        return;
      }
      recipeModal := Some(recipeModal.value.(shown := false));
      imageModalOpen := false;
      recipeContent := "";
      recipeDownload := None;
    }

    /** One viewer's `keydown` handler, acting only while that viewer is displayed. */
    method HandleKey(v: Viewer, key: Key)
      requires Valid()
      modifies this
      ensures State() == Handle(old(State()), v, key)
      ensures Valid()
    {
      DesktopProperties.HandleValid(State(), v, key);
      match v
      case ImageViewer =>
        if !Shown(modalOverlay) {
          return;
        }
        if key == Escape || key == Esc {
          CloseImageModal();
        } else if key == ArrowLeft {
          ShowPrevImage();
        } else if key == ArrowRight {
          ShowNextImage();
        }
      case RecipeViewer =>
        if !Shown(recipeModal) {
          return;
        }
        if key == Escape {
          CloseRecipeModal();
        }
    }

    /** A key press: the handlers registered so far run in registration order. */
    method KeyDown(key: Key)
      requires Valid()
      modifies this
      ensures State() == Desktop.KeyDown(old(State()), key)
      ensures Valid()
    {
      var hs := keyHandlers;
      var k := 0;
      while k < |hs|
        invariant 0 <= k <= |hs| && Valid()
        invariant Dispatch(State(), hs[k..], key) == Dispatch(old(State()), hs, key)
      {
        assert hs[k..][1..] == hs[k + 1..];
        HandleKey(hs[k], key);
        k := k + 1;
      }
    }

    /** One viewer's `keydown` handler as the source has it: it acts whenever `imageModalOpen` is set. */
    method HandleKeyAsWritten(v: Viewer, key: Key)
      requires Valid()
      modifies this
      ensures State() == HandleAsWritten(old(State()), v, key)
      ensures Valid()
    {
      if !imageModalOpen {
        return;
      }
      match v
      case ImageViewer =>
        if key == Escape || key == Esc {
          CloseImageModal();
        } else if key == ArrowLeft {
          ShowPrevImage();
        } else if key == ArrowRight {
          ShowNextImage();
        }
      case RecipeViewer =>
        if key == Escape {
          CloseRecipeModal();
        }
    }

    /** A key press with the handlers as written, in registration order. */
    method KeyDownAsWritten(key: Key)
      requires Valid()
      modifies this
      ensures State() == Desktop.KeyDownAsWritten(old(State()), key)
      ensures Valid()
    {
      var hs := keyHandlers;
      var k := 0;
      while k < |hs|
        invariant 0 <= k <= |hs| && Valid()
        invariant DispatchAsWritten(State(), hs[k..], key) == DispatchAsWritten(old(State()), hs, key)
      {
        assert hs[k..][1..] == hs[k + 1..];
        HandleKeyAsWritten(hs[k], key);
        k := k + 1;
      }
    }
  }
}
