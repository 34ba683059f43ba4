/** The gallery component as a whole: the images it navigates, the latest
    supplied selection, the selection it shows, the id its key handler moves
    from, and its document lifecycle; with the events that drive it (a render
    with the current props, a key press reaching the document, and
    unmounting).

    The key handler is registered by the effect, which re-runs only when the
    open flag changes. The handler therefore reads the selection of the render
    in which the effect last ran, not the selection shown when the key is
    pressed; `handlerId` records the id of that captured selection. */
module Gallery {
  import opened Images
  import opened Navigation
  import opened Keys
  import Lifecycle

  datatype Gallery = Gallery(
    images: seq<Image>,
    hint: Hint,
    current: Selection,
    handlerId: Option<Id>,
    life: Lifecycle.Mounted)

  /** What the component keeps between events: the document side effects match
      the open flag. */
  predicate Valid(g: Gallery)
  {
    Lifecycle.Consistent(g.life)
  }

  /** Mounting: the state starts as the supplied selection, whose id may be
      undefined, and the handler of this first render captures it; the effect
      then shows the first image when that id is undefined. */
  function Mount(images: seq<Image>, hint: Hint, isOpened: bool): (g: Gallery)
    requires hint.id.None? ==> |images| > 0
    ensures Valid(g)
    ensures g.images == images && g.hint == hint
    ensures g.current == InitialSelection(images, hint)
    ensures g.handlerId == hint.id
    ensures g.life.isOpen == isOpened && g.life.doc.marker == isOpened
  {
    Gallery(images, hint, InitialSelection(images, hint), hint.id, Lifecycle.Mount(isOpened))
  }

  /** A render with props `isOpened` and `hint`. When the open flag changed,
      the effect of this render runs: it re-applies the first-image default if
      this render's supplied selection has no id, and registers (when open) a
      handler that captured the selection this render started from. */
  function Render(g: Gallery, isOpened: bool, hint: Hint): (r: Gallery)
    requires isOpened != g.life.isOpen && hint.id.None? ==> |g.images| > 0
    ensures r.images == g.images && r.hint == hint
    ensures r.life == Lifecycle.Render(g.life, isOpened)
    ensures isOpened == g.life.isOpen ==> r.current == g.current && r.handlerId == g.handlerId
    ensures isOpened != g.life.isOpen ==> r.handlerId == Some(g.current.id)
    ensures isOpened != g.life.isOpen && hint.id.None? ==> r.current == Project(g.images[0])
    ensures isOpened != g.life.isOpen && hint.id.Some? ==> r.current == g.current
  {
    if isOpened == g.life.isOpen then g.(hint := hint)
    else g.(hint := hint,
            current := RerunSelection(g.images, hint, g.current),
            handlerId := Some(g.current.id),
            life := Lifecycle.Render(g.life, isOpened))
  }

  /** A key press on the document: with no handler registered nothing happens;
      otherwise the handler moves from the id it captured. The boolean says
      whether the owner's close callback was called. */
  function KeyDown(g: Gallery, keyCode: int): (r: (Gallery, bool))
    requires |g.life.doc.listeners| > 0 && (keyCode == RightArrow || keyCode == LeftArrow) ==> |g.images| > 0
    ensures r.0.images == g.images && r.0.hint == g.hint && r.0.handlerId == g.handlerId && r.0.life == g.life
    ensures |g.life.doc.listeners| == 0 ==> r == (g, false)
    ensures |g.life.doc.listeners| > 0 ==>
              r.1 == (keyCode == Escape) &&
              r.0.current == Apply(g.current, Dispatch(g.images, g.handlerId, keyCode))
  {
    if |g.life.doc.listeners| == 0 then (g, false)
    else
      var a := Dispatch(g.images, g.handlerId, keyCode);
      (g.(current := Apply(g.current, a)), a.Close?)
  }

  /** The events that reach a mounted gallery: the owner re-rendering it with
      an open flag and a supplied selection, or a key press on the document. */
  datatype Event = Toggle(isOpened: bool, hint: Hint) | Key(keyCode: int)

  /** The source does not crash on `e`: only the first-image default and the
      arrows' fallback reads need an image. */
  predicate CanStep(g: Gallery, e: Event)
  {
    match e
    case Toggle(isOpened, hint) => isOpened != g.life.isOpen && hint.id.None? ==> |g.images| > 0
    case Key(keyCode) => |g.life.doc.listeners| > 0 && (keyCode == RightArrow || keyCode == LeftArrow) ==> |g.images| > 0
  }

  /** One event; whether a key press called the close callback is the owner's
      business and is dropped here. */
  function Step(g: Gallery, e: Event): (r: Gallery)
    requires CanStep(g, e)
    ensures r.images == g.images
    ensures e.Toggle? ==> r.life.isOpen == e.isOpened && r.hint == e.hint
    ensures e.Key? ==> r.life == g.life && r.handlerId == g.handlerId
  {
    match e
    case Toggle(isOpened, hint) => Render(g, isOpened, hint)
    case Key(keyCode) => KeyDown(g, keyCode).0
  }

  /** Every event of `events` can be taken in turn from `g`. */
  predicate Runs(g: Gallery, events: seq<Event>)
    decreases |events|
  {
    |events| == 0 || (CanStep(g, events[0]) && Runs(Step(g, events[0]), events[1..]))
  }

  /** The events of `events`, in arrival order. */
  function Replay(g: Gallery, events: seq<Event>): (r: Gallery)
    requires Runs(g, events)
    ensures r.images == g.images
    ensures |events| > 0 && events[|events| - 1].Toggle? ==>
              r.life.isOpen == events[|events| - 1].isOpened && r.hint == events[|events| - 1].hint
    decreases |events|
  {
    if |events| == 0 then g else Replay(Step(g, events[0]), events[1..])
  }

  /** Unmounting runs the last cleanup. */
  function Unmount(g: Gallery): (d: Lifecycle.Doc)
    ensures Valid(g) ==> d == Lifecycle.Clean
  {
    Lifecycle.Unmount(g.life)
  }

  // Properties of the component

  /** Renders keep the component valid, and the marker follows the open flag. */
  lemma RenderKeepsValid(g: Gallery, isOpened: bool, hint: Hint)
    requires Valid(g)
    requires isOpened != g.life.isOpen && hint.id.None? ==> |g.images| > 0
    ensures Valid(Render(g, isOpened, hint))
    ensures Render(g, isOpened, hint).life.doc.marker == isOpened
  {
    Lifecycle.RenderKeepsConsistent(g.life, isOpened);
  }

  /** Reopening (or closing) the gallery with a supplied selection that has no
      id goes back to the first image; with an id, the selection is kept. The
      decision is taken on the selection supplied to that render. */
  lemma ToggleResetsUnlessIdSupplied(g: Gallery, isOpened: bool, hint: Hint)
    requires isOpened != g.life.isOpen
    requires hint.id.None? ==> |g.images| > 0
    ensures hint.id.None? ==> Render(g, isOpened, hint).current == Project(g.images[0])
    ensures hint.id.Some? ==> Render(g, isOpened, hint).current == g.current
    ensures Render(g, isOpened, hint).hint == hint
  {
  }

  /** While closed, no handler is registered, so key presses change nothing
      and never call the close callback. */
  lemma KeysIgnoredWhileClosed(g: Gallery, keyCode: int)
    requires Valid(g)
    requires !g.life.isOpen
    ensures KeyDown(g, keyCode) == (g, false)
  {
  }

  /** While open, the close callback is called exactly on escape, the arrows
      move from the id the handler captured, and other keys change nothing. */
  lemma KeysWhileOpen(g: Gallery, keyCode: int)
    requires Valid(g)
    requires g.life.isOpen
    requires keyCode == RightArrow || keyCode == LeftArrow ==> |g.images| > 0
    ensures KeyDown(g, keyCode).1 <==> keyCode == Escape
    ensures keyCode == RightArrow ==> KeyDown(g, keyCode).0.current == AdvanceFrom(g.images, g.handlerId)
    ensures keyCode == LeftArrow ==> KeyDown(g, keyCode).0.current == RetreatFrom(g.images, g.handlerId)
    ensures keyCode != RightArrow && keyCode != LeftArrow ==> KeyDown(g, keyCode).0 == g
  {
    assert g.life.run in g.life.doc.listeners;
  }

  /** Because the handler does not re-read the selection shown, pressing the
      same key again has the same effect as pressing it once: repeated right
      arrows keep showing the same image. */
  lemma RepeatedKeyRepeatsItsEffect(g: Gallery, keyCode: int)
    requires |g.life.doc.listeners| > 0 && (keyCode == RightArrow || keyCode == LeftArrow) ==> |g.images| > 0
    ensures KeyDown(KeyDown(g, keyCode).0, keyCode) == KeyDown(g, keyCode)
  {
  }

  /** After the open flag changes, the arrows move from the image shown before
      that render, not from the first image a reset has just put in its
      place. */
  lemma ReopenedHandlerMovesFromPreviousImage(g: Gallery, hint: Hint)
    requires Valid(g)
    requires !g.life.isOpen
    requires |g.images| > 0
    ensures
      var r := Render(g, true, hint);
      KeyDown(r, RightArrow).0.current == Advance(g.images, g.current.id) &&
      KeyDown(r, LeftArrow).0.current == Retreat(g.images, g.current.id)
  {
    RenderKeepsValid(g, true, hint);
    KeysWhileOpen(Render(g, true, hint), RightArrow);
    KeysWhileOpen(Render(g, true, hint), LeftArrow);
  }

  /** Mounted open from ids 1, 2, 3: without a supplied id every right arrow
      shows the first image; from id 1, two right arrows both show id 2. */
  lemma StaleHandlerExample()
    ensures
      var images := [Image(1, "a", "A"), Image(2, "b", "B"), Image(3, "c", "C")];
      var g := Mount(images, Hint("", "", None), true);
      KeyDown(g, RightArrow).0.current == Project(images[0]) &&
      KeyDown(KeyDown(g, RightArrow).0, RightArrow).0.current == Project(images[0])
    ensures
      var images := [Image(1, "a", "A"), Image(2, "b", "B"), Image(3, "c", "C")];
      var g := Mount(images, Hint("a", "A", Some(1)), true);
      KeyDown(g, RightArrow).0.current == Project(images[1]) &&
      KeyDown(KeyDown(g, RightArrow).0, RightArrow).0.current == Project(images[1])
  {
    var images := [Image(1, "a", "A"), Image(2, "b", "B"), Image(3, "c", "C")];
    assert FindIndex(images, 1) == 0;
    var g := Mount(images, Hint("a", "A", Some(1)), true);
    RepeatedKeyRepeatsItsEffect(g, RightArrow);
    var h := Mount(images, Hint("", "", None), true);
    RepeatedKeyRepeatsItsEffect(h, RightArrow);
  }

  /** A key press keeps the component valid and, once the selection shows one
      of the gallery's images, it keeps showing one. */
  lemma KeyDownKeepsValid(g: Gallery, keyCode: int)
    requires Valid(g)
    requires |g.life.doc.listeners| > 0 && (keyCode == RightArrow || keyCode == LeftArrow) ==> |g.images| > 0
    ensures Valid(KeyDown(g, keyCode).0)
    ensures IsProjectionOf(g.images, g.current) ==> IsProjectionOf(g.images, KeyDown(g, keyCode).0.current)
  {
  }

  /** Mounting with no supplied id shows one of the gallery's images. */
  lemma MountWithoutIdShowsAnImage(images: seq<Image>, hint: Hint, isOpened: bool)
    requires hint.id.None?
    requires |images| > 0
    ensures IsProjectionOf(images, Mount(images, hint, isOpened).current)
  {
    assert Mount(images, hint, isOpened).current == Project(images[0]);
  }

  /** A gallery with at least one image takes any sequence of events. */
  lemma {:induction false} NonEmptyGalleryRunsAll(g: Gallery, events: seq<Event>)
    requires |g.images| > 0
    ensures Runs(g, events)
    decreases |events|
  {
    if |events| > 0 {
      NonEmptyGalleryRunsAll(Step(g, events[0]), events[1..]);
    }
  }

  /** Over any sequence of events, the component stays valid, at most one key
      listener is registered, the marker is present exactly while open, and a
      selection showing one of the images keeps showing one. */
  lemma {:induction false} ReplayKeepsInvariants(g: Gallery, events: seq<Event>)
    requires Valid(g)
    requires Runs(g, events)
    ensures Valid(Replay(g, events))
    ensures |Replay(g, events).life.doc.listeners| <= 1
    ensures Replay(g, events).life.doc.marker == Replay(g, events).life.isOpen
    ensures IsProjectionOf(g.images, g.current) ==> IsProjectionOf(g.images, Replay(g, events).current)
    decreases |events|
  {
    if |events| > 0 {
      var next := Step(g, events[0]);
      match events[0] {
        case Toggle(isOpened, hint) =>
          RenderKeepsValid(g, isOpened, hint);
          if isOpened != g.life.isOpen && hint.id.None? {
            ToggleResetsUnlessIdSupplied(g, isOpened, hint);
            assert next.current == Project(g.images[0]);
          }
        case Key(keyCode) =>
          KeyDownKeepsValid(g, keyCode);
      }
      ReplayKeepsInvariants(next, events[1..]);
    } else {
      var l := g.life.doc.listeners;
      assert l == {} || l == {g.life.run};
    }
  }
}
