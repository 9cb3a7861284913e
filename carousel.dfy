/** The image carousel of the product-detail dialog (frontend/src/pages/CreateProduct.tsx):
    its Prev and Next buttons move the shown index around the list of image URLs. The dialog
    is opened by clicking image `i` of a list of `n` images, so `0 <= i < n` holds throughout. */
module Carousel {

  /** JavaScript's `%` on integers, which truncates toward zero (unlike Dafny's `%`). */
  function JsRemainder(a: int, n: int): (r: int)
    requires n > 0
    ensures a >= 0 ==> r == a % n && 0 <= r < n
    ensures a < 0 ==> -n < r <= 0
    ensures (a - r) % n == 0
  {
    if a >= 0 then
      MultipleRemainder(a / n, n, a - a % n);
      a % n
    else
      var m := (-a) % n;
      MultipleRemainder(-((-a) / n), n, a + m);
      -m
  }

  /** A multiple of `n` leaves no remainder. */
  lemma MultipleRemainder(q: int, n: int, x: int)
    requires n > 0 && x == q * n
    ensures x % n == 0
  {
    var k := q - x / n;
    assert n * k == x % n by {
      assert x == n * (x / n) + x % n;
      assert n * k == n * q - n * (x / n);
    }
  }

  /** `(prev + 1) % carouselImages.length`: the next image, wrapping to the first. */
  function NextIndex(i: int, n: int): (r: int)
    requires 0 <= i < n
    ensures 0 <= r < n
    ensures r == if i == n - 1 then 0 else i + 1
  {
    JsRemainder(i + 1, n)
  }

  /** `(prev - 1 + carouselImages.length) % carouselImages.length`: the previous image, wrapping to the last. */
  function PrevIndex(i: int, n: int): (r: int)
    requires 0 <= i < n
    ensures 0 <= r < n
    ensures r == if i == 0 then n - 1 else i - 1
  {
    JsRemainder(i - 1 + n, n)
  }

  /** Prev undoes Next, and Next undoes Prev. */
  lemma PrevNextInverse(i: int, n: int)
    requires 0 <= i < n
    ensures PrevIndex(NextIndex(i, n), n) == i
    ensures NextIndex(PrevIndex(i, n), n) == i
  {
  }
}
