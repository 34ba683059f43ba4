/** The document-level side effects the gallery ties to its open flag: a
    marker class on the page body (which locks background scrolling) and a
    keydown listener. The effect runs at mount and again whenever the open flag
    changes; React runs the previous run's cleanup first, and once more when
    the gallery unmounts.

    Each render creates a fresh handler function, so the listener an effect
    adds is told apart from the others by the number of the effect run that
    added it. The marker is a boolean because adding a class the body already
    has, or removing one it lacks, leaves the class list as it was; the
    listeners are a set because `addEventListener` ignores a handler already
    registered and `removeEventListener` ignores one that is not. */
module Lifecycle {

  /** The part of the document the gallery touches. */
  datatype Doc = Doc(marker: bool, listeners: set<nat>)

  /** The gallery's view of its own lifetime: the open flag the effect last ran
      for, the number of that run, and the document. */
  datatype Mounted = Mounted(isOpen: bool, run: nat, doc: Doc)

  /** The document before the gallery mounts. */
  const Clean := Doc(false, {})

  /** The number of listeners registered. */
  function ListenerCount(d: Doc): nat
  {
    |d.listeners|
  }

  /** The effect body for run `run`: when open, add the marker and register
      this run's handler; when closed, touch nothing. */
  function Setup(d: Doc, run: nat, isOpened: bool): (r: Doc)
    ensures isOpened ==> r.marker && r.listeners == d.listeners + {run}
    ensures !isOpened ==> r == d
  {
    if isOpened then Doc(true, d.listeners + {run}) else d
  }

  /** The cleanup of run `run`: remove the marker and unregister the handler
      that run registered, whether or not it was ever added. */
  function Cleanup(d: Doc, run: nat): (r: Doc)
    ensures !r.marker
    ensures run !in r.listeners && r.listeners <= d.listeners
    ensures forall h :: h in d.listeners && h != run ==> h in r.listeners
  {
    Doc(false, d.listeners - {run})
  }

  /** Mounting runs the effect for the first time. */
  function Mount(isOpened: bool): (m: Mounted)
    ensures m.isOpen == isOpened && m.doc.marker == isOpened
    ensures m.doc.listeners == (if isOpened then {m.run} else {})
  {
    Mounted(isOpened, 0, Setup(Clean, 0, isOpened))
  }

  /** A render with open flag `isOpened`: if the flag did not change the effect
      does not run; otherwise the previous run is cleaned up and the effect
      runs again under a new number. */
  function Render(m: Mounted, isOpened: bool): (r: Mounted)
    ensures isOpened == m.isOpen ==> r == m
    ensures isOpened != m.isOpen ==> r.isOpen == isOpened && r.doc.marker == isOpened && r.run != m.run
    ensures isOpened != m.isOpen ==>
              r.doc.listeners == (m.doc.listeners - {m.run}) + (if isOpened then {r.run} else {})
  {
    if isOpened == m.isOpen then m
    else Mounted(isOpened, m.run + 1, Setup(Cleanup(m.doc, m.run), m.run + 1, isOpened))
  }

  /** Unmounting runs the last cleanup. */
  function Unmount(m: Mounted): (d: Doc)
    ensures !d.marker
    ensures d.listeners == m.doc.listeners - {m.run}
  {
    Cleanup(m.doc, m.run)
  }

  /** Mounting, then one render per flag of `renders`, in order. */
  function RenderAll(first: bool, renders: seq<bool>): Mounted
    decreases |renders|
  {
    if |renders| == 0 then Mount(first)
    else Render(RenderAll(first, renders[..|renders| - 1]), renders[|renders| - 1])
  }

  /** The marker is present exactly while open, and exactly the current run's
      handler is registered while open and none while closed. */
  predicate Consistent(m: Mounted)
  {
    && m.doc.marker == m.isOpen
    && m.doc.listeners == (if m.isOpen then {m.run} else {})
  }

  // Properties of the lifecycle

  /** Opening adds the marker and exactly one listener to a clean document. */
  lemma MountOpenAddsOneListener()
    ensures Mount(true).doc.marker
    ensures ListenerCount(Mount(true).doc) == 1
    ensures Mount(false).doc == Clean
  {
  }

  /** The cleanup of a consistent state removes the marker and every listener. */
  lemma CleanupClears(m: Mounted)
    requires Consistent(m)
    ensures Unmount(m) == Clean
  {
  }

  /** A render keeps the state consistent. */
  lemma RenderKeepsConsistent(m: Mounted, isOpened: bool)
    requires Consistent(m)
    ensures Consistent(Render(m, isOpened))
    ensures Render(m, isOpened).isOpen == isOpened
  {
  }

  /** Over any sequence of renders: at most one listener, the marker present
      exactly when the last flag is open, and unmounting leaves the document
      clean. */
  lemma {:induction false} RenderAllConsistent(first: bool, renders: seq<bool>)
    ensures Consistent(RenderAll(first, renders))
    ensures ListenerCount(RenderAll(first, renders).doc) <= 1
    ensures RenderAll(first, renders).doc.marker <==>
              (if |renders| == 0 then first else renders[|renders| - 1])
    ensures Unmount(RenderAll(first, renders)) == Clean
    decreases |renders|
  {
    var m := RenderAll(first, renders);
    if |renders| > 0 {
      var prior := RenderAll(first, renders[..|renders| - 1]);
      RenderAllConsistent(first, renders[..|renders| - 1]);
      RenderKeepsConsistent(prior, renders[|renders| - 1]);
    }
    assert m.doc.listeners == {} || m.doc.listeners == {m.run};
  }
}
