# Lightbox gallery navigation, modelled in Dafny

A model of the navigation state machine of the `SRLLightboxGallery` React
component of simple-react-lightbox. The component shows one image of a fixed,
ordered sequence of images `{id, src, alt}` and holds a selection
`{source, caption, id}` that projects one of them. It moves that selection in
three ways: jump to an id, advance with wrap-around, and retreat with
wrap-around. While the lightbox is open it puts a marker class on the page body
and registers one keydown handler. Right arrow (39) advances, left arrow (37)
retreats, escape (27) calls the owner's close callback, and every other key
is ignored.

Modules:

- `Images` (`images.dfy`): the records and the lookups. `FindIndex` is the
  "first index whose id matches, or -1" scan, and `Find` is the "first
  matching image, or undefined" scan. `At` is JavaScript's array read, which
  yields `undefined` out of range, negative positions included.
- `Navigation` (`navigation.dfy`): `SelectById`, `Advance` and `Retreat`;
  the initial-selection rule and its re-application when the effect re-runs;
  and the laws relating them.
- `Keys` (`keys.dfy`): the key-code dispatch, given the id the handler moves
  from.
- `Lifecycle` (`lifecycle.dfy`): the document side effects as a record
  `{marker, listeners}`. Each effect run's handler is identified by the run's
  number, because every render creates a fresh handler function and each
  cleanup removes exactly its own. The model covers mount, renders (the effect
  re-runs only when the open flag changes, after the previous cleanup) and
  unmount.
- `Gallery` (`gallery.dfy`): the component as a whole, with renders, key
  presses reaching the document, and unmounting. Events are replayed one at a
  time in arrival order.

The code's quirks are modelled as written:

- `arr[k] || fallback` means that advancing from an id that is not in the
  sequence shows the first image, because the scan gives -1 and -1 + 1 = 0.
- Retreating from a missing id shows the last image, because reading index -2
  gives `undefined`.
- Only the jump dereferences a missing result, so `SelectById` requires the id
  to be present.
- Advance and retreat require a non-empty sequence, because their fallback
  read would otherwise be `undefined` too.
- The keydown handler is registered by an effect that re-runs only when the
  open flag changes, so it keeps the selection of that render. The handler therefore moves from
  the id of the selection held by the render in which the effect last ran,
  not from the image shown when the key is pressed. Repeated right arrows
  keep showing the same image (`Gallery.RepeatedKeyRepeatsItsEffect`). After
  a mount without id, every right arrow shows the first image, because the
  captured id is `undefined` (`Gallery.StaleHandlerExample`).
- A supplied selection that has an id is kept unchanged, whether or not that
  id is in the sequence. That the selection shows one of the images is
  therefore proved from the point where it does, for instance after a mount
  without id (`Gallery.MountWithoutIdShowsAnImage`,
  `Gallery.ReplayKeepsInvariants`).
- Only the fallback reads (the first image for the no-id default and for
  advance, the last image for retreat) need a non-empty sequence. The
  gallery-level requires clauses are conditional on exactly those reads, and
  `Gallery.NonEmptyGalleryRunsAll` shows that a non-empty gallery takes any
  sequence of events.
- Every time the open flag changes, the effect re-runs the "no id → first
  image" default, deciding on the selection supplied to that render.
  Reopening with a supplied selection that has no id therefore shows the
  first image again (`Gallery.ToggleResetsUnlessIdSupplied`).

## Model

| member | source | states |
|---|---|---|
| Images.FindIndex | src/SRL/SRLLightbox/SRLLightboxGallery/index.js:60-62 | the result is -1 exactly when no image has the id; otherwise it is a position holding the id with no earlier one holding it |
| Images.Find | src/SRL/SRLLightbox/SRLLightboxGallery/index.js:46-48 | an image is found exactly when the id is present, and it is the one at the first matching position |
| Images.At | src/SRL/SRLLightbox/SRLLightboxGallery/index.js:64 | an array read yields an element exactly for in-range positions (negative ones are undefined), and that element is the one stored there |
| Images.FindIndexOfMember | src/SRL/SRLLightbox/SRLLightboxGallery/index.js:77-79 | with unique ids, the scan for the id at position p returns p |
| Navigation.SelectById | src/SRL/SRLLightbox/SRLLightboxGallery/index.js:45-54 | for an id present in the sequence, the selection has that id and the src and alt of the first image carrying it |
| Navigation.Advance | src/SRL/SRLLightbox/SRLLightboxGallery/index.js:57-70 | the result always shows one of the images; an id not in the sequence leads to the first image |
| Navigation.Retreat | src/SRL/SRLLightbox/SRLLightboxGallery/index.js:73-89 | the result always shows one of the images; an id not in the sequence leads to the last image |
| Navigation.AdvanceFrom | src/SRL/SRLLightbox/SRLLightboxGallery/index.js:57-64 | advancing from an undefined id shows the first image, from a defined id it is the advance from that id; the result is one of the images |
| Navigation.RetreatFrom | src/SRL/SRLLightbox/SRLLightboxGallery/index.js:73-83 | retreating from an undefined id shows the last image, from a defined id it is the retreat from that id; the result is one of the images |
| Navigation.UndefinedIdIsMissing | src/SRL/SRLLightbox/SRLLightboxGallery/index.js:60-64 | an undefined id moves in both directions exactly as an id that no image carries |
| Navigation.InitialSelection | src/SRL/SRLLightbox/SRLLightboxGallery/index.js:18-30 | with no supplied id the selection is the first image; otherwise it keeps the supplied source, caption and id |
| Navigation.RerunSelection | src/SRL/SRLLightbox/SRLLightboxGallery/index.js:21-42 | when the effect re-runs, a supplied selection without id resets to the first image; otherwise the current selection is kept |
| Navigation.AdvanceIsSuccessorModLength | src/SRL/SRLLightbox/SRLLightboxGallery/index.js:60-64 | advance shows the image at (scan position + 1) modulo the length, which also covers the missing id (position -1) |
| Navigation.RetreatIsPredecessorModLength | src/SRL/SRLLightbox/SRLLightboxGallery/index.js:77-83 | for a present id, retreat shows the image at (scan position - 1) modulo the length |
| Navigation.AdvanceNext | src/SRL/SRLLightbox/SRLLightboxGallery/index.js:60-69 | with unique ids, advance from position p < n-1 shows the image at p+1 |
| Navigation.AdvanceWrapsAtEnd | src/SRL/SRLLightbox/SRLLightboxGallery/index.js:63-64 | with unique ids, advance from the last image shows the first |
| Navigation.RetreatPrevious | src/SRL/SRLLightbox/SRLLightboxGallery/index.js:77-88 | with unique ids, retreat from position p > 0 shows the image at p-1 |
| Navigation.RetreatWrapsAtStart | src/SRL/SRLLightbox/SRLLightboxGallery/index.js:80-83 | retreat from the first image shows the last |
| Navigation.SingleImage | src/SRL/SRLLightbox/SRLLightboxGallery/index.js:57-89 | with one image, advance and retreat both show it, whatever the id |
| Navigation.RetreatAfterAdvance | src/SRL/SRLLightbox/SRLLightboxGallery/index.js:57-89 | with unique ids, retreating from the image advance showed returns to the original id and its selection |
| Navigation.AdvanceAfterRetreat | src/SRL/SRLLightbox/SRLLightboxGallery/index.js:57-89 | with unique ids, advancing from the image retreat showed returns to the original id and its selection |
| Navigation.AdvanceTimesCycles | src/SRL/SRLLightbox/SRLLightboxGallery/index.js:57-70 | with unique ids, advancing k times from the image at p shows the image at (p + k) modulo the length |
| Navigation.RetreatTimesCycles | src/SRL/SRLLightbox/SRLLightboxGallery/index.js:73-89 | with unique ids, retreating k times from the image at p shows the image at (p - k) modulo the length |
| Navigation.AdvanceFullCycle | src/SRL/SRLLightbox/SRLLightboxGallery/index.js:57-70 | with unique ids, advancing as many times as there are images comes back to the starting image |
| Navigation.ThreeImageExample | src/SRL/SRLLightbox/SRLLightboxGallery/index.js:57-89 | with ids 1, 2, 3, advance from 3 shows 1 and retreat from 1 shows 3 |
| Navigation.RoundTripNeedsUniqueIds | src/SRL/SRLLightbox/SRLLightboxGallery/index.js:57-89 | with a repeated id, the advance/retreat round trip can land on another id |
| Keys.Dispatch | src/SRL/SRLLightbox/SRLLightboxGallery/index.js:92-100 | 39 advances and 37 retreats from the id the handler moves from, which may be undefined; the close callback is requested exactly for 27; every other code is ignored; a shown selection is one of the images |
| Keys.KeyKeepsSelectionInGallery | src/SRL/SRLLightbox/SRLLightboxGallery/index.js:92-100 | if the current selection shows one of the images, so does the selection after any key, whatever id the handler moves from |
| Keys.ArrowsUndoEachOther | src/SRL/SRLLightbox/SRLLightboxGallery/index.js:93-96 | with unique ids, dispatching right then left (or left then right), each on the id then shown, restores the selection; the registered handler does not re-read the id shown (see Gallery.RepeatedKeyRepeatsItsEffect) |
| Lifecycle.Setup | src/SRL/SRLLightbox/SRLLightboxGallery/index.js:32-35 | when open, the marker is set and this run's handler is added to the registered ones; when closed, the document is untouched |
| Lifecycle.Cleanup | src/SRL/SRLLightbox/SRLLightboxGallery/index.js:38-41 | the marker is removed and this run's handler is unregistered; every other handler stays |
| Lifecycle.Mount | src/SRL/SRLLightbox/SRLLightboxGallery/index.js:21-35 | the first effect run leaves the marker equal to the open flag, and exactly its own handler registered when open and none when closed |
| Lifecycle.Render | src/SRL/SRLLightbox/SRLLightboxGallery/index.js:21-42 | with the open flag unchanged the effect does not run; with it changed, the previous run's handler is removed, a new run's handler is added exactly when open, and the marker follows the flag |
| Lifecycle.Unmount | src/SRL/SRLLightbox/SRLLightboxGallery/index.js:38-41 | unmounting removes the marker and the last run's handler, and leaves every other handler |
| Lifecycle.MountOpenAddsOneListener | src/SRL/SRLLightbox/SRLLightboxGallery/index.js:32-35 | mounting open adds the marker and exactly one listener; mounting closed leaves the document clean |
| Lifecycle.CleanupClears | src/SRL/SRLLightbox/SRLLightboxGallery/index.js:38-41 | from a consistent state, cleanup leaves no marker and no listener |
| Lifecycle.RenderKeepsConsistent | src/SRL/SRLLightbox/SRLLightboxGallery/index.js:21-42 | a render, which re-runs the effect only when the open flag changes and cleans up first, keeps the marker equal to the flag and at most the current run's handler registered |
| Lifecycle.RenderAllConsistent | src/SRL/SRLLightbox/SRLLightboxGallery/index.js:21-42 | over any sequence of renders: at most one listener, the marker present exactly when the last flag is open, and unmounting leaves the document clean |
| Gallery.Mount | src/SRL/SRLLightbox/SRLLightboxGallery/index.js:18-42 | the mounted component is valid, holds the initial selection, its handler moves from the supplied id (undefined when none was given), and the marker is present exactly when mounted open |
| Gallery.Render | src/SRL/SRLLightbox/SRLLightboxGallery/index.js:9-42 | a render records the new props; with the open flag unchanged the selection and the handler stay; with it changed, the selection resets to the first image exactly when this render's supplied selection has no id, and the new handler moves from the selection this render started from |
| Gallery.KeyDown | src/SRL/SRLLightbox/SRLLightboxGallery/index.js:92-100 | with no handler registered a key changes nothing; otherwise the handler dispatches on the id it captured (not the live selection), the close callback is called exactly on escape, and the lifecycle and handler are untouched |
| Gallery.Step | src/SRL/SRLLightbox/SRLLightboxGallery/index.js:21-100 | a render moves the open flag to the one given and records the supplied selection; a key press leaves the lifecycle and the handler as they were; the images never change |
| Gallery.Replay | src/SRL/SRLLightbox/SRLLightboxGallery/index.js:21-100 | replaying events keeps the images, and after a final render the open flag and supplied selection are that render's |
| Gallery.Unmount | src/SRL/SRLLightbox/SRLLightboxGallery/index.js:38-41 | unmounting a valid component leaves the document clean |
| Gallery.RenderKeepsValid | src/SRL/SRLLightbox/SRLLightboxGallery/index.js:21-42 | renders keep the component valid and the marker equal to the open flag |
| Gallery.ToggleResetsUnlessIdSupplied | src/SRL/SRLLightbox/SRLLightboxGallery/index.js:24-30 | a change of the open flag resets the selection to the first image when the selection supplied to that render has no id, and keeps it otherwise |
| Gallery.KeysIgnoredWhileClosed | src/SRL/SRLLightbox/SRLLightboxGallery/index.js:32-41 | while closed, no handler is registered, so a key press changes nothing and never closes |
| Gallery.KeysWhileOpen | src/SRL/SRLLightbox/SRLLightboxGallery/index.js:92-100 | while open, close is requested exactly on escape, the arrows advance or retreat from the id the handler captured, and other keys leave the component unchanged |
| Gallery.RepeatedKeyRepeatsItsEffect | src/SRL/SRLLightbox/SRLLightboxGallery/index.js:21-100 | since the registered handler never re-reads the selection, pressing a key a second time changes nothing more than the first press did |
| Gallery.ReopenedHandlerMovesFromPreviousImage | src/SRL/SRLLightbox/SRLLightboxGallery/index.js:18-96 | after reopening, the arrows move from the image shown before that render, even when the reopening reset the selection to the first image |
| Gallery.StaleHandlerExample | src/SRL/SRLLightbox/SRLLightboxGallery/index.js:18-96 | with ids 1, 2, 3 mounted open: without a supplied id, one or two right arrows show id 1; from id 1, one or two right arrows show id 2 |
| Gallery.KeyDownKeepsValid | src/SRL/SRLLightbox/SRLLightboxGallery/index.js:92-100 | a key press keeps the component valid and keeps the selection on one of the images |
| Gallery.NonEmptyGalleryRunsAll | src/SRL/SRLLightbox/SRLLightboxGallery/index.js:24-83 | with at least one image, no event sequence reaches a read of a missing first or last image |
| Gallery.MountWithoutIdShowsAnImage | src/SRL/SRLLightbox/SRLLightboxGallery/index.js:24-30 | mounting with a supplied selection that has no id shows one of the gallery's images |
| Gallery.ReplayKeepsInvariants | src/SRL/SRLLightbox/SRLLightboxGallery/index.js:21-100 | over any sequence of renders and key presses: the component stays valid, at most one listener is registered, the marker is present exactly while open, and a selection showing one of the images keeps showing one |

## Left out

- JSX rendering, the stage styling, `overlayColor`, and the `showThumbnails` / `showCaption` pass-through (index.js:110-122). They are presentation only and make no decisions.
- The PropTypes declarations (index.js:125-133). They check types at run time and do not affect navigation.
- The slide and controls renderers. They are not part of this model. They only call the operations modelled here.
- The browser. The `document`, `classList` and `addEventListener` are abstracted as the `Lifecycle.Doc` record, and React's scheduling as the explicit mount/render/unmount functions.
- The owner's close callback `handleCloseLightbox` is external code. The model records only that it was called (the boolean of `Gallery.KeyDown`). What the owner does next arrives as a later render with the open flag false (`Gallery.Toggle`).
- `imagesGallery` is frozen at mount (index.js:19), while the slide receives the live `images`. Navigation is modelled over one fixed sequence.
- The first render, before the mount effect runs, holds the supplied selection even when its id is undefined. The model starts from the state after the mount effect (`Navigation.InitialSelection`); the handler registered by that first effect keeps the supplied id, undefined or not, as `Gallery.Mount` records.
- Identifiers are modelled as integers compared with `==`. JavaScript's `===` on other identifier types is not modelled.
- Lifecycle.CleanupClears: it says the cleanup leaves no listener only for a consistent state. `removeEventListener` at index.js:40 removes only the handler of its own render, so a handler left by some other run would survive. `Lifecycle.RenderAllConsistent` shows that no reachable state has one.
