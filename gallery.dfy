/**
 * The gallery section: a fixed list of four images shown as thumbnails, and a
 * lightbox overlay that shows one selected image with previous/next navigation
 * that wraps around at both ends.
 */
module Gallery {
  import opened Wrappers

  /** One gallery entry; `src` stands for the bundled asset the image is loaded from. */
  datatype Image = Image(src: string, title: string, category: string)

  /** The gallery's images, in display order. */
  const Images: seq<Image> := [
    Image("hero-apartment.jpg", "Living Space", "Interior"),
    Image("bedroom.jpg", "Master Suite", "Bedroom"),
    Image("kitchen.jpg", "Gourmet Kitchen", "Kitchen"),
    Image("terrace.jpg", "Rooftop Views", "Terrace")
  ]

  /** The "next" arrow: one step forward, the last image wrapping to the first. */
  function NextIndex(i: nat): (j: nat)
    requires i < |Images|
    ensures j < |Images|
    ensures j == (i + 1) % |Images|
  {
    if i == |Images| - 1 then 0 else i + 1
  }

  /** The "previous" arrow: one step back, the first image wrapping to the last. */
  function PrevIndex(i: nat): (j: nat)
    requires i < |Images|
    ensures j < |Images|
    ensures j == (i + |Images| - 1) % |Images|
  {
    if i == 0 then |Images| - 1 else i - 1
  }

  /** Previous undoes next. */
  lemma NextThenPrev(i: nat)
    requires i < |Images|
    ensures PrevIndex(NextIndex(i)) == i
  {
  }

  /** Next undoes previous. */
  lemma PrevThenNext(i: nat)
    requires i < |Images|
    ensures NextIndex(PrevIndex(i)) == i
  {
  }

  /** The index reached by pressing "next" k times from index i. */
  function NextN(i: nat, k: nat): (j: nat)
    requires i < |Images|
    ensures j < |Images|
  {
    if k == 0 then i else NextIndex(NextN(i, k - 1))
  }

  lemma {:induction false} NextNIsRotation(i: nat, k: nat)
    requires i < |Images|
    ensures NextN(i, k) == (i + k) % |Images|
  {
    if k > 0 {
      NextNIsRotation(i, k - 1);
    }
  }

  /** Pressing "next" once per image brings the lightbox back to where it started. */
  lemma {:induction false} FullCycleReturns(i: nat)
    requires i < |Images|
    ensures NextN(i, |Images|) == i
  {
    NextNIsRotation(i, |Images|);
  }

  /** What the open lightbox shows: the image and its "position / total" counter. */
  datatype LightboxView = LightboxView(image: Image, position: nat, total: nat)

  /** The lightbox selection of the gallery section (`selectedIndex`, null when closed). */
  class Lightbox {
    var selectedIndex: Option<nat>

    /** The selection, when there is one, names an existing image. */
    ghost predicate Valid()
      reads this
    {
      selectedIndex.Some? ==> selectedIndex.value < |Images|
    }

    /** The section mounts with the lightbox closed. */
    constructor ()
      ensures Valid() && selectedIndex == None
    {
      selectedIndex := None;
    }

    /** Clicking thumbnail i opens the lightbox on image i. */
    method Open(i: nat)
      requires i < |Images|
      modifies this
      ensures Valid() && selectedIndex == Some(i)
    {
      selectedIndex := Some(i);
    }

    /** Clicking the backdrop or the close button closes the lightbox. */
    method Close()
      modifies this
      ensures Valid() && selectedIndex == None
    {
      selectedIndex := None;
    }

    /** The "previous" arrow; does nothing while the lightbox is closed. */
    method Prev()
      requires Valid()
      modifies this
      ensures Valid()
      ensures old(selectedIndex).None? ==> selectedIndex == None
      ensures old(selectedIndex).Some? ==> selectedIndex == Some(PrevIndex(old(selectedIndex).value))
    {
      if selectedIndex.Some? {
        selectedIndex := Some(PrevIndex(selectedIndex.value));
      }
    }

    /** The "next" arrow; does nothing while the lightbox is closed. */
    method Next()
      requires Valid()
      modifies this
      ensures Valid()
      ensures old(selectedIndex).None? ==> selectedIndex == None
      ensures old(selectedIndex).Some? ==> selectedIndex == Some(NextIndex(old(selectedIndex).value))
    {
      if selectedIndex.Some? {
        selectedIndex := Some(NextIndex(selectedIndex.value));
      }
    }

    /** What the overlay renders: nothing while closed, otherwise the selected
        image with the counter "position / total", position counting from 1. */
    method Displayed() returns (view: Option<LightboxView>)
      requires Valid()
      ensures view.Some? <==> selectedIndex.Some?
      ensures view.Some? ==> view.value.image == Images[selectedIndex.value]
      ensures view.Some? ==> view.value.position == selectedIndex.value + 1
      ensures view.Some? ==> 1 <= view.value.position <= view.value.total == 4
    {
      match selectedIndex
      case None => view := None;
      case Some(i) => view := Some(LightboxView(Images[i], i + 1, |Images|));
    }
  }
}
