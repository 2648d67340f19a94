/**
 * The venue image slideshow (src/components/VenueImageSlideshow.tsx): the
 * index of the image on show, moved by the arrows, the dots, a horizontal
 * swipe and a four-second timer, always through `goTo`, which wraps the
 * index around the number of images.
 */
module Slideshow {

  /** JavaScript's `a % n` for `n > 0`: the remainder takes the sign of `a`. */
  function JsRem(a: int, n: int): (r: int)
    requires n > 0
    ensures -n < r < n
    ensures a >= 0 ==> r >= 0
    ensures a < 0 ==> r <= 0
  {
    if a >= 0 then a % n else -((-a) % n)
  }

  /** The index `goTo(index)` stores: `(index + n) % n`. */
  function Wrap(index: int, n: int): int
    requires n > 0
  {
    JsRem(index + n, n)
  }

  /** A positive multiple of `n` is at least `n`. */
  lemma {:induction false} MulAtLeast(k: int, n: int)
    requires n > 0 && k >= 1
    ensures k * n >= n
    decreases k
  {
    if k > 1 {
      MulAtLeast(k - 1, n);
      assert k * n == (k - 1) * n + n;
    }
  }

  /** The remainder is the one `r` in `[0, n)` with `a == q * n + r`. */
  lemma ModUnique(a: int, n: int, q: int, r: int)
    requires n > 0 && 0 <= r < n && a == q * n + r
    ensures a % n == r
  {
    var q', r' := a / n, a % n;
    assert a == q' * n + r';
    if q > q' {
      assert (q - q') * n == r' - r;
      MulAtLeast(q - q', n);
    } else if q < q' {
      assert (q' - q) * n == r - r';
      MulAtLeast(q' - q, n);
    }
  }

  /**
   * From `-n` on, `goTo` stores the mathematical residue of `index` modulo
   * `n` (Dafny's `%`), which lies in `[0, n)`.
   */
  lemma WrapInRange(index: int, n: int)
    requires n > 0 && index >= -n
    ensures Wrap(index, n) == index % n
    ensures 0 <= Wrap(index, n) < n
  {
    var q, r := index / n, index % n;
    assert index == q * n + r;
    assert index + n == (q + 1) * n + r;
    ModUnique(index + n, n, q + 1, r);
  }

  /** Below `-n` the adjustment is too small: with two or more images, `-n - 1` is stored as `-1`. */
  lemma WrapBelowRange(n: int)
    requires n > 1
    ensures Wrap(-n - 1, n) == -1
  {
    ModUnique(1, n, 0, 1);
  }

  /** An index already in range is stored as it is. */
  lemma WrapInside(index: int, n: int)
    requires 0 <= index < n
    ensures Wrap(index, n) == index
  {
    ModUnique(index + n, n, 1, index);
  }

  /** One step forward: the last image is followed by the first. */
  lemma WrapForward(i: int, n: int)
    requires 0 <= i < n
    ensures Wrap(i + 1, n) == if i == n - 1 then 0 else i + 1
  {
    if i < n - 1 {
      WrapInside(i + 1, n);
    } else {
      ModUnique(2 * n, n, 2, 0);
    }
  }

  /** One step back: the first image is preceded by the last. */
  lemma WrapBackward(i: int, n: int)
    requires 0 <= i < n
    ensures Wrap(i - 1, n) == if i == 0 then n - 1 else i - 1
  {
    if i > 0 {
      WrapInside(i - 1, n);
    } else {
      ModUnique(n - 1, n, 0, n - 1);
    }
  }

  /** The swipe threshold in pixels. */
  const SwipeThreshold: int := 50

  /** What the component renders: nothing without images, otherwise one opacity flag per image. */
  datatype View = Nothing | Images(visible: seq<bool>, controls: bool)

  class Slideshow {
    /** `images.length`. */
    const count: nat
    /** `currentIndex`. */
    var currentIndex: int
    /** `touchStartX.current`: where the last touch began. */
    var touchStartX: int

    /** The index names an image, or is the initial 0 when there is none. */
    predicate Valid()
      reads this
    {
      currentIndex == 0 || 0 <= currentIndex < count
    }

    /** A slideshow starts at the first image with no touch recorded. */
    constructor (n: nat)
      ensures count == n && currentIndex == 0 && touchStartX == 0
      ensures Valid()
    {
      count := n;
      currentIndex := 0;
      touchStartX := 0;
    }

    /** `goTo(index)`. Every caller is rendered only when there is at least one image. */
    method GoTo(index: int)
      requires count > 0
      modifies this
      ensures currentIndex == Wrap(index, count)
      ensures touchStartX == old(touchStartX)
    {
      currentIndex := (if index + count >= 0 then (index + count) % count
                       else -((-(index + count)) % count));
    }

    /** The right arrow, shown only when there is more than one image. */
    method Next()
      requires Valid() && count > 1
      modifies this
      ensures Valid()
      ensures currentIndex == if old(currentIndex) == count - 1 then 0 else old(currentIndex) + 1
      ensures touchStartX == old(touchStartX)
    {
      WrapForward(currentIndex, count);
      GoTo(currentIndex + 1);
    }

    /** The left arrow, shown only when there is more than one image. */
    method Prev()
      requires Valid() && count > 1
      modifies this
      ensures Valid()
      ensures currentIndex == if old(currentIndex) == 0 then count - 1 else old(currentIndex) - 1
      ensures touchStartX == old(touchStartX)
    {
      WrapBackward(currentIndex, count);
      GoTo(currentIndex - 1);
    }

    /** The dot for image `idx`, shown only when there is more than one image. */
    method Dot(idx: nat)
      requires Valid() && count > 1 && idx < count
      modifies this
      ensures Valid() && currentIndex == idx
      ensures touchStartX == old(touchStartX)
    {
      WrapInside(idx, count);
      GoTo(idx);
    }

    /** The interval callback, armed only when there is more than one image. */
    method Tick()
      requires Valid() && TimerArmed()
      modifies this
      ensures Valid()
      ensures currentIndex == if old(currentIndex) == count - 1 then 0 else old(currentIndex) + 1
      ensures touchStartX == old(touchStartX)
    {
      WrapForward(currentIndex, count);
      GoTo(currentIndex + 1);
    }

    /** `onTouchStart`: remember where the finger went down. */
    method TouchStart(x: int)
      modifies this
      ensures touchStartX == x && currentIndex == old(currentIndex)
    {
      touchStartX := x;
    }

    /**
     * `onTouchEnd`: a swipe of more than 50 pixels to the left shows the next
     * image, one to the right the previous image; a shorter one does nothing.
     */
    method TouchEnd(x: int)
      requires Valid() && count > 0
      modifies this
      ensures Valid()
      ensures touchStartX == old(touchStartX)
      ensures var diff := old(touchStartX) - x;
        && (-SwipeThreshold <= diff <= SwipeThreshold ==> currentIndex == old(currentIndex))
        && (diff > SwipeThreshold ==> currentIndex == if old(currentIndex) == count - 1 then 0 else old(currentIndex) + 1)
        && (diff < -SwipeThreshold ==> currentIndex == if old(currentIndex) == 0 then count - 1 else old(currentIndex) - 1)
    {
      var diff := touchStartX - x;
      if (if diff < 0 then -diff else diff) > SwipeThreshold {
        if diff > 0 {
          WrapForward(currentIndex, count);
        } else {
          WrapBackward(currentIndex, count);
        }
        GoTo(currentIndex + (if diff > 0 then 1 else -1));
      }
    }

    /** The auto-advance effect sets its interval only when there is more than one image. */
    predicate TimerArmed()
      reads this
    {
      count > 1
    }

    /**
     * The rendered output: nothing without images; otherwise each image is
     * opaque exactly when its index is the current one (so is each dot), and
     * arrows and dots appear only for more than one image.
     */
    function Render(): (v: View)
      reads this
      ensures v == Nothing <==> count == 0
      ensures v.Images? ==> |v.visible| == count && (v.controls <==> count > 1)
      ensures v.Images? && Valid() ==>
        0 <= currentIndex < |v.visible| && v.visible[currentIndex]
        && forall i :: 0 <= i < |v.visible| && v.visible[i] ==> i == currentIndex
    {
      var current := currentIndex;
      if count == 0 then Nothing
      else Images(seq(count, i => i == current), count > 1)
    }
  }
}
