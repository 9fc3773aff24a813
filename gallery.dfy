/**
 * The swipe handler of the item page: the index of the shown image moves one step on a
 * horizontal swipe of at least 40 pixels and never leaves the list of thumbnails.
 * Touch positions are whole pixels.
 */
module Gallery {

  /** The shortest swipe, in pixels, that changes the image. */
  const SwipeThreshold := 40

  /**
   * The `touchend` handler: `diff` is the start position minus the end position, so a
   * positive `diff` is a swipe to the left, towards the next image.
   */
  function SwipeStep(index: int, count: int, diff: int): (next: int)
    ensures -SwipeThreshold < diff < SwipeThreshold ==> next == index
    ensures 0 <= index < count ==> 0 <= next < count
    ensures diff >= SwipeThreshold ==> index <= next <= index + 1
    ensures diff <= -SwipeThreshold ==> index - 1 <= next <= index
  {
    if -SwipeThreshold < diff < SwipeThreshold then index
    else if diff > 0 && index < count - 1 then index + 1
    else if diff < 0 && index > 0 then index - 1
    else index
  }

  /** A swipe back undoes a swipe forward that moved. */
  lemma SwipeBackUndoes(index: int, count: int, diff: int)
    requires 0 <= index < count - 1 && diff >= SwipeThreshold
    ensures SwipeStep(SwipeStep(index, count, diff), count, -diff) == index
  {
  }

  /** The index after `k` swipes of the same length. */
  function Swipes(index: int, count: int, diff: int, k: nat): int {
    if k == 0 then index else SwipeStep(Swipes(index, count, diff, k - 1), count, diff)
  }

  /** `k` long swipes to the left move `k` images on, stopping at the last one. */
  lemma {:induction false} SwipesForward(index: int, count: int, diff: int, k: nat)
    requires 0 <= index < count && diff >= SwipeThreshold
    ensures Swipes(index, count, diff, k) == if index + k < count - 1 then index + k else count - 1
  {
    if k > 0 {
      SwipesForward(index, count, diff, k - 1);
    }
  }

  /** JavaScript `xs.indexOf(x)`: the first position of `x`, -1 when absent. */
  function IndexOf(xs: seq<string>, x: string): (i: int)
    ensures -1 <= i < |xs|
    ensures i >= 0 ==> xs[i] == x && forall j :: 0 <= j < i ==> xs[j] != x
    ensures i == -1 ==> x !in xs
  {
    if xs == [] then -1
    else if xs[0] == x then 0
    else
      var i := IndexOf(xs[1..], x);
      if i == -1 then -1 else i + 1
  }

  /** The swipe state of the item page; the handlers exist only with two or more thumbnails. */
  class SwipeGallery {
    const images: seq<string>
    var currentIndex: int
    var startX: int

    ghost predicate Valid()
      reads this
    {
      0 <= currentIndex < |images|
    }

    /** Starts on the thumbnail showing the main image, or on the first one. */
    constructor(thumbs: seq<string>, mainSrc: string)
      requires |thumbs| > 1
      ensures Valid() && images == thumbs && startX == 0
      ensures mainSrc in thumbs ==> images[currentIndex] == mainSrc
      ensures mainSrc !in thumbs ==> currentIndex == 0
    {
      images := thumbs;
      var i := IndexOf(thumbs, mainSrc);
      if i < 0 {
        i := 0;
      }
      currentIndex := i;
      startX := 0;
    }

    /** `touchstart`: remembers where the finger went down. */
    method TouchStart(x: int)
      modifies this
      ensures startX == x && currentIndex == old(currentIndex)
    {
      startX := x;
    }

    /** `touchend`: steps the index by the swipe from `startX` to `x`. */
    method TouchEnd(x: int)
      requires Valid()
      modifies this
      ensures Valid()
      ensures currentIndex == SwipeStep(old(currentIndex), |images|, old(startX) - x)
      ensures startX == old(startX)
    {
      var diff := startX - x;
      if -SwipeThreshold < diff < SwipeThreshold {
        return;
      }
      if diff > 0 && currentIndex < |images| - 1 {
        currentIndex := currentIndex + 1;
      } else if diff < 0 && currentIndex > 0 {
        currentIndex := currentIndex - 1;
      }
    }

    /** The image `updateImage` puts in the main slot. */
    function Shown(): (src: string)
      requires Valid()
      reads this
      ensures src in images
    {
      images[currentIndex]
    }
  }
}
