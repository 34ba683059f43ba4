/** The data the gallery navigates: an ordered, fixed sequence of images, the
    selection projected from one of them, and the lookups the component performs
    over the sequence (the "find" and "find index" scans, and JavaScript's
    out-of-range array read that yields `undefined`). */
module Images {

  /** An optional value; `None` plays the role of JavaScript's `undefined`. */
  datatype Option<+T> = None | Some(value: T)

  type Id = int

  /** One entry of the gallery, as supplied by the caller. */
  datatype Image = Image(id: Id, src: string, alt: string)

  /** What the slide and the controls display: the projection of one image. */
  datatype Selection = Selection(source: string, caption: string, id: Id)

  /** The selection handed in by the caller, whose identifier may be undefined. */
  datatype Hint = Hint(source: string, caption: string, id: Option<Id>)

  /** The selection that shows `img`. */
  function Project(img: Image): (s: Selection)
    ensures s.id == img.id && s.source == img.src && s.caption == img.alt
  {
    Selection(img.src, img.alt, img.id)
  }

  /** Some image of the sequence carries identifier `id`. */
  predicate Contains(images: seq<Image>, id: Id)
  {
    exists k :: 0 <= k < |images| && images[k].id == id
  }

  /** No two images of the sequence share an identifier. */
  predicate UniqueIds(images: seq<Image>)
  {
    forall i, j :: 0 <= i < j < |images| ==> images[i].id != images[j].id
  }

  /** `s` shows one of the images of the sequence. */
  predicate IsProjectionOf(images: seq<Image>, s: Selection)
  {
    exists k :: 0 <= k < |images| && s == Project(images[k])
  }

  /** The position of the first image whose id is `id`, or -1 when there is
      none: the component's linear "find index" scan. */
  function FindIndex(images: seq<Image>, id: Id): (r: int)
    ensures -1 <= r < |images|
    ensures r == -1 <==> !Contains(images, id)
    ensures 0 <= r ==> images[r].id == id
    ensures forall j :: 0 <= j < |images| && (r == -1 || j < r) ==> images[j].id != id
  {
    ScanFrom(images, id, 0)
  }

  /** The scan from position `from` on: the first matching position at or
      after `from`, or -1. */
  function ScanFrom(images: seq<Image>, id: Id, from: nat): (r: int)
    requires from <= |images|
    ensures r == -1 || from <= r < |images|
    ensures 0 <= r ==> images[r].id == id
    ensures forall j :: from <= j < |images| && (r == -1 || j < r) ==> images[j].id != id
    decreases |images| - from
  {
    if from == |images| then -1
    else if images[from].id == id then from
    else ScanFrom(images, id, from + 1)
  }

  /** The first image whose id is `id`, if any: the component's "find" scan. */
  function Find(images: seq<Image>, id: Id): (r: Option<Image>)
    ensures r.Some? <==> Contains(images, id)
    ensures r.Some? ==> r.value.id == id && r.value == images[FindIndex(images, id)]
  {
    if |images| == 0 then None
    else if images[0].id == id then Some(images[0])
    else
      assert forall j :: 1 <= j < |images| ==> images[j] == images[1..][j - 1];
      Find(images[1..], id)
  }

  /** JavaScript's `images[k]`: the element when `k` is in range, otherwise
      `undefined`, negative positions included. */
  function At(images: seq<Image>, k: int): (r: Option<Image>)
    ensures r.Some? <==> 0 <= k < |images|
    ensures r.Some? ==> r.value == images[k]
  {
    if 0 <= k < |images| then Some(images[k]) else None
  }

  /** With unique ids, the scan for the id at position `p` stops at `p`. */
  lemma FindIndexOfMember(images: seq<Image>, p: int)
    requires UniqueIds(images)
    requires 0 <= p < |images|
    ensures FindIndex(images, images[p].id) == p
  {
  }
}
