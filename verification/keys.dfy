/** The keyboard handler the gallery installs while it is open: right arrow
    advances, left arrow retreats, escape asks the owner to close, and every
    other key is ignored. */
module Keys {
  import opened Images
  import opened Navigation

  const RightArrow: int := 39
  const LeftArrow: int := 37
  const Escape: int := 27

  /** What one key press does: show a new selection, call the owner's close
      callback, or nothing. */
  datatype Action = Show(selection: Selection) | Close | Ignore

  /** The handler, given the id it moves from (which may be `undefined`). Both
      arrows read the first or last image as a fallback, so they need a
      non-empty gallery. */
  function Dispatch(images: seq<Image>, fromId: Option<Id>, keyCode: int): (a: Action)
    requires keyCode == RightArrow || keyCode == LeftArrow ==> |images| > 0
    ensures a.Close? <==> keyCode == Escape
    ensures a.Ignore? <==> keyCode != RightArrow && keyCode != LeftArrow && keyCode != Escape
    ensures a.Show? ==> IsProjectionOf(images, a.selection)
    ensures keyCode == RightArrow ==> a == Show(AdvanceFrom(images, fromId))
    ensures keyCode == LeftArrow ==> a == Show(RetreatFrom(images, fromId))
  {
    if keyCode == RightArrow then Show(AdvanceFrom(images, fromId))
    else if keyCode == LeftArrow then Show(RetreatFrom(images, fromId))
    else if keyCode == Escape then Close
    else Ignore
  }

  /** The selection after an action; closing leaves it to the owner, so the
      selection itself does not change. */
  function Apply(current: Selection, a: Action): (r: Selection)
    ensures a.Show? ==> r == a.selection
    ensures !a.Show? ==> r == current
  {
    match a
    case Show(s) => s
    case Close => current
    case Ignore => current
  }

  /** A key press keeps the selection in sync with the sequence: if the image
      shown is one of the gallery's, so is the one shown afterwards, whatever
      id the handler moves from. */
  lemma KeyKeepsSelectionInGallery(images: seq<Image>, current: Selection, fromId: Option<Id>, keyCode: int)
    requires keyCode == RightArrow || keyCode == LeftArrow ==> |images| > 0
    requires IsProjectionOf(images, current)
    ensures IsProjectionOf(images, Apply(current, Dispatch(images, fromId, keyCode)))
  {
  }

  /** Dispatching right arrow then left arrow, each on the id then shown,
      brings back the image shown before, and so does left then right. (The
      handler the gallery registers does not re-read the id shown; see
      `Gallery.RepeatedKeyRepeatsItsEffect`.) */
  lemma ArrowsUndoEachOther(images: seq<Image>, current: Selection)
    requires UniqueIds(images)
    requires IsProjectionOf(images, current)
    ensures
      var next := Apply(current, Dispatch(images, Some(current.id), RightArrow));
      Apply(next, Dispatch(images, Some(next.id), LeftArrow)) == current
    ensures
      var prev := Apply(current, Dispatch(images, Some(current.id), LeftArrow));
      Apply(prev, Dispatch(images, Some(prev.id), RightArrow)) == current
  {
    var k :| 0 <= k < |images| && current == Project(images[k]);
    FindIndexOfMember(images, k);
    RetreatAfterAdvance(images, current.id);
    AdvanceAfterRetreat(images, current.id);
  }
}
