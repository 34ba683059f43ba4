/** The three ways the gallery moves its selection over the fixed sequence of
    images: jump to an id, advance with wrap-around, retreat with wrap-around;
    and the rule that picks the selection when the gallery mounts or reopens. */
module Navigation {
  import opened Images

  /** Jump to the image whose id is `id`. The component dereferences the result
      of the scan without checking it, so the id must be present. */
  function SelectById(images: seq<Image>, id: Id): (r: Selection)
    requires Contains(images, id)
    ensures r.id == id
    ensures IsProjectionOf(images, r)
    ensures r.source == images[FindIndex(images, id)].src
    ensures r.caption == images[FindIndex(images, id)].alt
  {
    var found := Find(images, id);
    assert images[FindIndex(images, id)] == found.value;
    Project(found.value)
  }

  /** The image after the one whose id is `id`. Reading one past the end gives
      `undefined`, and then the first image is shown; an id that is not in the
      sequence is found at position -1, so it too leads to the first image. */
  function Advance(images: seq<Image>, id: Id): (r: Selection)
    requires |images| > 0
    ensures IsProjectionOf(images, r)
    ensures !Contains(images, id) ==> r == Project(images[0])
  {
    var p := FindIndex(images, id);
    match At(images, p + 1)
    case Some(img) =>
      assert img == images[p + 1];
      Project(img)
    case None => Project(images[0])
  }

  /** The image before the one whose id is `id`. Reading position -1 gives
      `undefined`, and then the last image is shown; an id that is not in the
      sequence reads position -2, so it too leads to the last image. */
  function Retreat(images: seq<Image>, id: Id): (r: Selection)
    requires |images| > 0
    ensures IsProjectionOf(images, r)
    ensures !Contains(images, id) ==> r == Project(images[|images| - 1])
  {
    var p := FindIndex(images, id);
    match At(images, p - 1)
    case Some(img) =>
      assert img == images[p - 1];
      Project(img)
    case None => Project(images[|images| - 1])
  }

  /** The selection once the gallery has mounted: the supplied one, or the
      first image when the supplied one has no id. */
  function InitialSelection(images: seq<Image>, hint: Hint): (r: Selection)
    requires hint.id.None? ==> |images| > 0
    ensures hint.id.None? ==> r == Project(images[0])
    ensures hint.id.Some? ==> r.id == hint.id.value && r.source == hint.source && r.caption == hint.caption
  {
    match hint.id
    case None => Project(images[0])
    case Some(id) => Selection(hint.source, hint.caption, id)
  }

  /** The selection after the mount effect runs again (the open flag changed):
      the supplied selection still has no id, so the first image is shown
      again; otherwise the current selection stays. */
  function RerunSelection(images: seq<Image>, hint: Hint, current: Selection): (r: Selection)
    requires hint.id.None? ==> |images| > 0
    ensures hint.id.None? ==> r == Project(images[0])
    ensures hint.id.Some? ==> r == current
  {
    if hint.id.None? then Project(images[0]) else current
  }

  /** Advance from an id that may be `undefined`, as the key handler's is when
      the gallery was mounted from a selection without id. No image carries
      `undefined`, so the scan gives -1 and the first image is shown. */
  function AdvanceFrom(images: seq<Image>, id: Option<Id>): (r: Selection)
    requires |images| > 0
    ensures IsProjectionOf(images, r)
    ensures id.None? ==> r == Project(images[0])
    ensures id.Some? ==> r == Advance(images, id.value)
  {
    match id
    case None => Project(images[0])
    case Some(i) => Advance(images, i)
  }

  /** Retreat from an id that may be `undefined`: the scan gives -1, position
      -2 is read as `undefined`, and the last image is shown. */
  function RetreatFrom(images: seq<Image>, id: Option<Id>): (r: Selection)
    requires |images| > 0
    ensures IsProjectionOf(images, r)
    ensures id.None? ==> r == Project(images[|images| - 1])
    ensures id.Some? ==> r == Retreat(images, id.value)
  {
    match id
    case None => Project(images[|images| - 1])
    case Some(i) => Retreat(images, i)
  }

  /** Advancing `k` times from `s`, each step from the id the previous step
      showed, as repeated presses of the "next" control do. */
  function AdvanceTimes(images: seq<Image>, s: Selection, k: nat): Selection
    requires |images| > 0
    decreases k
  {
    if k == 0 then s else AdvanceTimes(images, Advance(images, s.id), k - 1)
  }

  /** Retreating `k` times from `s`. */
  function RetreatTimes(images: seq<Image>, s: Selection, k: nat): Selection
    requires |images| > 0
    decreases k
  {
    if k == 0 then s else RetreatTimes(images, Retreat(images, s.id), k - 1)
  }

  // Properties of the navigation

  /** Advance is the successor modulo the length, starting from the scan's
      position (which is -1 for a missing id). */
  lemma AdvanceIsSuccessorModLength(images: seq<Image>, id: Id)
    requires |images| > 0
    ensures Advance(images, id) == Project(images[(FindIndex(images, id) + 1) % |images|])
  {
    var p, n := FindIndex(images, id), |images|;
    if p + 1 == n {
      ModOfRange(p + 1, n, 1);
      assert Advance(images, id) == Project(images[0]);
    } else {
      ModOfRange(p + 1, n, 0);
      assert Advance(images, id) == Project(images[p + 1]);
    }
  }

  /** For an id that is present, retreat is the predecessor modulo the length. */
  lemma RetreatIsPredecessorModLength(images: seq<Image>, id: Id)
    requires Contains(images, id)
    ensures Retreat(images, id) == Project(images[(FindIndex(images, id) - 1) % |images|])
  {
    var p, n := FindIndex(images, id), |images|;
    if p == 0 {
      assert At(images, p - 1) == None;
      ModOfRange(-1, n, -1);
      assert (p - 1) % n == n - 1;
      assert Retreat(images, id) == Project(images[n - 1]);
    } else {
      ModOfRange(p - 1, n, 0);
      assert (p - 1) % n == p - 1;
      assert Retreat(images, id) == Project(images[p - 1]);
    }
  }

  /** Advance from a position before the last shows the next image. */
  lemma AdvanceNext(images: seq<Image>, p: int)
    requires UniqueIds(images)
    requires 0 <= p < |images| - 1
    ensures Advance(images, images[p].id) == Project(images[p + 1])
  {
    FindIndexOfMember(images, p);
  }

  /** Advance from the last image wraps to the first. */
  lemma AdvanceWrapsAtEnd(images: seq<Image>)
    requires UniqueIds(images)
    requires |images| > 0
    ensures Advance(images, images[|images| - 1].id) == Project(images[0])
  {
    FindIndexOfMember(images, |images| - 1);
  }

  /** Retreat from a position after the first shows the previous image. */
  lemma RetreatPrevious(images: seq<Image>, p: int)
    requires UniqueIds(images)
    requires 0 < p < |images|
    ensures Retreat(images, images[p].id) == Project(images[p - 1])
  {
    FindIndexOfMember(images, p);
  }

  /** Retreat from the first image wraps to the last. */
  lemma RetreatWrapsAtStart(images: seq<Image>)
    requires |images| > 0
    ensures Retreat(images, images[0].id) == Project(images[|images| - 1])
  {
    assert FindIndex(images, images[0].id) == 0;
  }

  /** An `undefined` id moves exactly as an id that no image carries. */
  lemma UndefinedIdIsMissing(images: seq<Image>, id: Id)
    requires |images| > 0
    requires !Contains(images, id)
    ensures AdvanceFrom(images, None) == Advance(images, id)
    ensures RetreatFrom(images, None) == Retreat(images, id)
  {
  }

  /** With a single image, both directions show it, whatever the id. */
  lemma SingleImage(images: seq<Image>, id: Id)
    requires |images| == 1
    ensures Advance(images, id) == Project(images[0])
    ensures Retreat(images, id) == Project(images[0])
  {
  }

  /** Retreat undoes advance: it comes back to the image with id `id`. */
  lemma RetreatAfterAdvance(images: seq<Image>, id: Id)
    requires UniqueIds(images)
    requires Contains(images, id)
    ensures Retreat(images, Advance(images, id).id).id == id
    ensures Retreat(images, Advance(images, id).id) == SelectById(images, id)
  {
    var p := FindIndex(images, id);
    var n := |images|;
    if p < n - 1 {
      AdvanceNext(images, p);
      RetreatPrevious(images, p + 1);
    } else {
      AdvanceWrapsAtEnd(images);
      RetreatWrapsAtStart(images);
    }
  }

  /** Advance undoes retreat: it comes back to the image with id `id`. */
  lemma AdvanceAfterRetreat(images: seq<Image>, id: Id)
    requires UniqueIds(images)
    requires Contains(images, id)
    ensures Advance(images, Retreat(images, id).id).id == id
    ensures Advance(images, Retreat(images, id).id) == SelectById(images, id)
  {
    var p := FindIndex(images, id);
    var n := |images|;
    if 0 < p {
      RetreatPrevious(images, p);
      AdvanceNext(images, p - 1);
    } else {
      RetreatWrapsAtStart(images);
      AdvanceWrapsAtEnd(images);
    }
  }

  /** Advancing `k` times from the image at `p` shows the image `k` places
      further on, counted cyclically. */
  lemma AdvanceTimesCycles(images: seq<Image>, p: int, k: nat)
    requires UniqueIds(images)
    requires 0 <= p < |images|
    ensures AdvanceTimes(images, Project(images[p]), k) == Project(images[(p + k) % |images|])
  {
    AdvanceTimesFollowsPositions(images, p, k);
    ForwardIsModular(|images|, p, k);
  }

  /** Retreating `k` times from the image at `p` shows the image `k` places
      back, counted cyclically. */
  lemma RetreatTimesCycles(images: seq<Image>, p: int, k: nat)
    requires UniqueIds(images)
    requires 0 <= p < |images|
    ensures RetreatTimes(images, Project(images[p]), k) == Project(images[(p - k) % |images|])
  {
    RetreatTimesFollowsPositions(images, p, k);
    BackwardIsModular(|images|, p, k);
  }

  /** The position reached from `p` after `k` forward steps with wrap-around,
      among `n` positions. */
  function Forward(n: nat, p: int, k: nat): int
    decreases k
  {
    if k == 0 then p else Forward(n, if p < n - 1 then p + 1 else 0, k - 1)
  }

  /** The position reached from `p` after `k` backward steps with wrap-around. */
  function Backward(n: nat, p: int, k: nat): int
    decreases k
  {
    if k == 0 then p else Backward(n, if 0 < p then p - 1 else n - 1, k - 1)
  }

  lemma {:induction false} AdvanceTimesFollowsPositions(images: seq<Image>, p: int, k: nat)
    requires UniqueIds(images)
    requires 0 <= p < |images|
    ensures 0 <= Forward(|images|, p, k) < |images|
    ensures AdvanceTimes(images, Project(images[p]), k) == Project(images[Forward(|images|, p, k)])
    decreases k
  {
    if k > 0 {
      var q := if p < |images| - 1 then p + 1 else 0;
      AdvanceTimesStep(images, p, q, k);
      AdvanceTimesFollowsPositions(images, q, k - 1);
    }
  }

  lemma {:induction false} RetreatTimesFollowsPositions(images: seq<Image>, p: int, k: nat)
    requires UniqueIds(images)
    requires 0 <= p < |images|
    ensures 0 <= Backward(|images|, p, k) < |images|
    ensures RetreatTimes(images, Project(images[p]), k) == Project(images[Backward(|images|, p, k)])
    decreases k
  {
    if k > 0 {
      var q := if 0 < p then p - 1 else |images| - 1;
      RetreatTimesStep(images, p, q, k);
      RetreatTimesFollowsPositions(images, q, k - 1);
    }
  }

  lemma {:induction false} ForwardIsModular(n: nat, p: int, k: nat)
    requires 0 <= p < n
    ensures Forward(n, p, k) == (p + k) % n
    decreases k
  {
    if k == 0 {
      ModOfRange(p, n, 0);
    } else if p < n - 1 {
      ForwardIsModular(n, p + 1, k - 1);
    } else {
      ForwardIsModular(n, 0, k - 1);
      ModAddPeriod(k - 1, n);
    }
  }

  lemma {:induction false} BackwardIsModular(n: nat, p: int, k: nat)
    requires 0 <= p < n
    ensures Backward(n, p, k) == (p - k) % n
    decreases k
  {
    if k == 0 {
      ModOfRange(p, n, 0);
    } else if 0 < p {
      BackwardIsModular(n, p - 1, k - 1);
    } else {
      BackwardIsModular(n, n - 1, k - 1);
      var back := 0 - (k as int);
      ModAddPeriod(back, n);
    }
  }

  lemma AdvanceTimesStep(images: seq<Image>, p: int, q: int, k: nat)
    requires UniqueIds(images)
    requires 0 <= p < |images| && 0 < k
    requires q == if p < |images| - 1 then p + 1 else 0
    ensures AdvanceTimes(images, Project(images[p]), k) == AdvanceTimes(images, Project(images[q]), k - 1)
  {
    AdvanceStep(images, p, q);
  }

  lemma RetreatTimesStep(images: seq<Image>, p: int, q: int, k: nat)
    requires UniqueIds(images)
    requires 0 <= p < |images| && 0 < k
    requires q == if 0 < p then p - 1 else |images| - 1
    ensures RetreatTimes(images, Project(images[p]), k) == RetreatTimes(images, Project(images[q]), k - 1)
  {
    RetreatStep(images, p, q);
  }

  lemma AdvanceStep(images: seq<Image>, p: int, q: int)
    requires UniqueIds(images)
    requires 0 <= p < |images|
    requires q == if p < |images| - 1 then p + 1 else 0
    ensures Advance(images, Project(images[p]).id) == Project(images[q])
  {
    if p < |images| - 1 {
      AdvanceNext(images, p);
    } else {
      AdvanceWrapsAtEnd(images);
    }
  }

  lemma RetreatStep(images: seq<Image>, p: int, q: int)
    requires UniqueIds(images)
    requires 0 <= p < |images|
    requires q == if 0 < p then p - 1 else |images| - 1
    ensures Retreat(images, Project(images[p]).id) == Project(images[q])
  {
    if 0 < p {
      RetreatPrevious(images, p);
    } else {
      RetreatWrapsAtStart(images);
    }
  }

  /** A full tour of `|images|` advances comes back to where it started. */
  lemma AdvanceFullCycle(images: seq<Image>, p: int)
    requires UniqueIds(images)
    requires 0 <= p < |images|
    ensures AdvanceTimes(images, Project(images[p]), |images|) == Project(images[p])
  {
    AdvanceTimesCycles(images, p, |images|);
    ModOfRange(p + |images|, |images|, 1);
  }

  /** Three images with ids 1, 2, 3: advance from 3 wraps to 1, and retreat
      from 1 wraps back to 3. */
  lemma ThreeImageExample()
    ensures
      var images := [Image(1, "a", "A"), Image(2, "b", "B"), Image(3, "c", "C")];
      && Advance(images, 3) == Selection("a", "A", 1)
      && Retreat(images, 1) == Selection("c", "C", 3)
  {
    var images := [Image(1, "a", "A"), Image(2, "b", "B"), Image(3, "c", "C")];
    assert FindIndex(images, 3) == 2;
    assert FindIndex(images, 1) == 0;
  }

  /** The round trip needs unique ids: with id 1 on the first and the last
      image, advancing from 2 and retreating again lands on id 1, not 2. */
  lemma RoundTripNeedsUniqueIds()
    ensures
      var images := [Image(1, "a", "A"), Image(2, "b", "B"), Image(1, "c", "C")];
      && !UniqueIds(images)
      && Retreat(images, Advance(images, 2).id).id == 1
  {
    var images := [Image(1, "a", "A"), Image(2, "b", "B"), Image(1, "c", "C")];
    assert images[0].id == images[2].id;
    assert FindIndex(images, 2) == 1;
    assert FindIndex(images, 1) == 0;
  }

  // Arithmetic helpers for the cyclic lemmas

  lemma MulAtLeast(a: int, n: int)
    requires a >= 1 && n > 0
    ensures a * n >= n
    decreases a
  {
    if a > 1 {
      MulAtLeast(a - 1, n);
      assert a * n == (a - 1) * n + n;
    }
  }

  /** `x % n` is the offset of `x` within the block `[q * n, q * n + n)`. */
  lemma ModOfRange(x: int, n: int, q: int)
    requires n > 0 && q * n <= x < q * n + n
    ensures x % n == x - q * n
  {
    var d := x / n;
    assert x == d * n + x % n;
    if d > q {
      MulAtLeast(d - q, n);
    } else if d < q {
      MulAtLeast(q - d, n);
    }
  }

  lemma ModAddPeriod(y: int, n: int)
    requires n > 0
    ensures (y + n) % n == y % n
  {
    var d := y / n;
    assert y == d * n + y % n;
    assert (d + 1) * n == d * n + n;
    ModOfRange(y + n, n, d + 1);
  }
}
