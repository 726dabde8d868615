/**
 * The two places where the coordinator does something other than what it
 * evidently means to, each written as the code has it next to a lemma that
 * exhibits the difference.  The image list of the rest of the model is updated
 * in the corrected form (`Desktop.OpenImageModal`); the key handlers are in
 * `Desktop` both as written (`HandleAsWritten`) and as corrected (`Handle`),
 * and both keep the invariant (`DesktopProperties`).
 */
module Findings {
  import opened Wrappers
  import opened Desktop
  import opened DesktopProperties

  // ---------------------------------------------------------------------------
  // openImageModal pushes the bare source string (script.js:582-590)

  /**
   * An entry of `PROJECT_IMAGES` as the code leaves it: the initial entries are
   * objects `{src, name}`, while an image opened by `openImageModal` is pushed
   * as the bare string it was given.
   */
  datatype ImageEntry = Described(src: string, name: string) | BareSource(text: string)

  /** `entry.src`: a string has no `src` property, so it reads as `undefined` (`None`). */
  function EntrySrc(e: ImageEntry): Option<string> {
    match e
    case Described(src, _) => Some(src)
    case BareSource(_) => None
  }

  /** `PROJECT_IMAGES.findIndex(p => p.src === imageSrc)` over the entries as written. */
  function FindEntry(entries: seq<ImageEntry>, src: string): (r: Option<nat>)
    ensures r.Some? ==> r.value < |entries| && EntrySrc(entries[r.value]) == Some(src)
    ensures r.None? ==> forall j :: 0 <= j < |entries| ==> EntrySrc(entries[j]) != Some(src)
    decreases |entries|
  {
    if |entries| == 0 then None
    else if EntrySrc(entries[0]) == Some(src) then Some(0)
    else match FindEntry(entries[1..], src)
      case None => None
      case Some(k) => Some(k + 1)
  }

  /** The list and the selected index after `openImageModal(src, alt)` as written. */
  function OpenEntriesAsWritten(entries: seq<ImageEntry>, src: string): (r: (seq<ImageEntry>, nat))
    ensures r.1 < |r.0|
  {
    match FindEntry(entries, src)
    case Some(i) => (entries, i)
    case None => (entries + [BareSource(src)], |entries|)
  }

  /**
   * Opening an unlisted image twice adds two entries, and the viewer is handed
   * `undefined` as the source to show: the bare string is never found again and
   * has no `src`.
   */
  lemma AsWrittenReopenDuplicates(entries: seq<ImageEntry>, src: string)
    requires FindEntry(entries, src).None?
    ensures var once := OpenEntriesAsWritten(entries, src);
      var twice := OpenEntriesAsWritten(once.0, src);
      |twice.0| == |entries| + 2 && EntrySrc(twice.0[twice.1]) == None && twice.1 != once.1
  {
    var once := OpenEntriesAsWritten(entries, src);
    assert EntrySrc(once.0[|entries|]) == None;
    assert FindEntry(once.0, src).None?;
  }

  /** The corrected form shows the image it was asked for, and opening it again reuses its entry. */
  lemma CorrectedReopenReuses(d: Desk, src: string, alt: string)
    requires FindImage(d.images, src).None?
    ensures var once := OpenImageModal(d, src, alt);
      var twice := OpenImageModal(once, src, alt);
      once.viewerImage == Some(ProjectImage(src, alt))
      && |twice.images| == |d.images| + 1 && twice.viewerImage == once.viewerImage
  {
    ReopenSameImage(d, src, alt);
  }

  // ---------------------------------------------------------------------------
  // Both key handlers test the shared flag (script.js:365-371, 533-547)

  /**
   * With the image viewer built before the recipe viewer, Escape on the open
   * recipe runs `closeImageModal` first, which clears the flag, so the recipe
   * handler returns early: the recipe stays on screen with the flag off, and
   * further Escapes do nothing.
   */
  lemma AsWrittenEscapeLeavesRecipeOpen(d: Desk)
    requires d.keyHandlers == [ImageViewer, RecipeViewer]
    requires d.modalOpen && Shown(d.recipeViewer) && d.imageViewer.Some?
    ensures var r := KeyDownAsWritten(d, Escape);
      Shown(r.recipeViewer) && !r.modalOpen && KeyDownAsWritten(r, Escape) == r
  {
    var c := CloseImageModal(d);
    assert HandleAsWritten(c, RecipeViewer, Escape) == c;
    assert [ImageViewer, RecipeViewer][1..] == [RecipeViewer];
  }

  /**
   * The other order: with the recipe viewer built first, Escape on an open image
   * runs `closeRecipeModal` first, and the image stays on screen with the flag
   * off, deaf to Escape and to the arrow keys.
   */
  lemma AsWrittenEscapeLeavesImageOpen(d: Desk)
    requires d.keyHandlers == [RecipeViewer, ImageViewer]
    requires d.modalOpen && Shown(d.imageViewer) && d.recipeViewer.Some?
    ensures var r := KeyDownAsWritten(d, Escape);
      Shown(r.imageViewer) && !r.modalOpen
      && KeyDownAsWritten(r, Escape) == r && KeyDownAsWritten(r, ArrowRight) == r
  {
    var c := CloseRecipeModal(d);
    assert HandleAsWritten(c, ImageViewer, Escape) == c;
    assert [RecipeViewer, ImageViewer][1..] == [ImageViewer];
  }

  /** The situation arises from page load: view an image, close it, open the recipe. */
  lemma AsWrittenSituationReachable(kinds: seq<string>, src: string, alt: string)
    ensures var d := OpenRecipeModal(CloseImageModal(OpenImageModal(Initial(kinds), src, alt)));
      d.keyHandlers == [ImageViewer, RecipeViewer]
      && d.modalOpen && Shown(d.recipeViewer) && d.imageViewer.Some?
  {
    var a := OpenImageModal(Initial(kinds), src, alt);
    assert a.keyHandlers == [ImageViewer];
  }

  /** So does the other order: open the recipe, close it, view an image. */
  lemma AsWrittenImageSituationReachable(kinds: seq<string>, src: string, alt: string)
    ensures var d := OpenImageModal(CloseRecipeModal(OpenRecipeModal(Initial(kinds))), src, alt);
      d.keyHandlers == [RecipeViewer, ImageViewer]
      && d.modalOpen && Shown(d.imageViewer) && d.recipeViewer.Some?
  {
    var a := CloseRecipeModal(OpenRecipeModal(Initial(kinds)));
    assert a.keyHandlers == [RecipeViewer] && a.imageViewer.None?;
    assert SelectImage(a, src, alt).keyHandlers == [RecipeViewer, ImageViewer];
  }

  /** Every displayed viewer has its handler among `hs`, and the flag is set only while one is displayed. */
  predicate Covered(d: Desk, hs: seq<Viewer>) {
    (Shown(d.imageViewer) ==> ImageViewer in hs)
    && (Shown(d.recipeViewer) ==> RecipeViewer in hs)
    && (d.modalOpen ==> Shown(d.imageViewer) || Shown(d.recipeViewer))
  }

  lemma {:induction false} DispatchEscape(d: Desk, hs: seq<Viewer>)
    requires Covered(d, hs)
    ensures var r := Dispatch(d, hs, Escape);
      !Shown(r.imageViewer) && !Shown(r.recipeViewer) && !r.modalOpen
    decreases |hs|
  {
    if |hs| > 0 {
      var n := Handle(d, hs[0], Escape);
      assert Covered(n, hs[1..]) by {
        assert forall v :: v in hs && v != hs[0] ==> v in hs[1..];
      }
      DispatchEscape(n, hs[1..]);
    }
  }

  /** With the corrected handlers, Escape hides whatever viewer is displayed and clears the flag. */
  lemma EscapeClosesEverything(d: Desk)
    requires Valid(d)
    ensures var r := KeyDown(d, Escape);
      !Shown(r.imageViewer) && !Shown(r.recipeViewer) && !r.modalOpen
  {
    DispatchEscape(d, d.keyHandlers);
  }
}
