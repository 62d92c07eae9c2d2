/** The three-card carousel (`frontend/src/components/Carousel.js`): an
    `index` state cell moved one card back or on, wrapping around. */
module Carousel {

  /** The number of cards, `items.length`. */
  const ItemCount: nat := 3

  /** The quotient of division truncated toward zero, `Math.trunc(a / b)`. */
  function JsQuot(a: int, b: int): int
    requires b > 0
  {
    if a >= 0 then a / b else -((-a) / b)
  }

  /** JavaScript's `%`: the remainder of division truncated toward zero, so
      it takes the sign of the dividend and `a` is `b` times the truncated
      quotient plus it. */
  function JsRem(a: int, b: int): (r: int)
    requires b > 0
    ensures a >= 0 ==> 0 <= r < b
    ensures a < 0 ==> -b < r <= 0
    ensures a == b * JsQuot(a, b) + r
  {
    if a >= 0 then a % b
    else
      var q := (-a) / b;
      assert -a == b * q + (-a) % b;
      assert b * -q == -(b * q);
      -((-a) % b)
  }

  lemma ModBelow(x: int, n: int)
    requires 0 <= x < n
    ensures x % n == x
  {
  }

  lemma ModOnce(x: int, n: int)
    requires 0 < n <= x < 2 * n
    ensures x % n == x - n
  {
    ModBelow(x - n, n);
    assert x == n * 1 + (x - n);
  }

  lemma ModTwice(n: int)
    requires 0 < n
    ensures (2 * n) % n == 0
  {
    assert 2 * n == n * 2 + 0;
  }

  /** The sum `moveSlide` reduces lies in [0, 2 * len] for a button
      press, so it is a card's index, `len` past one, or `2 * len`. */
  lemma StepLands(prevIndex: int, direction: int, len: nat)
    requires len > 0
    ensures 0 <= prevIndex < len && (direction == 1 || direction == -1) ==>
              0 <= prevIndex + direction + len
              && (prevIndex + direction + len) % len
                 == if prevIndex + direction == len then 0
                    else if prevIndex + direction < 0 then len - 1
                    else prevIndex + direction
  {
    var x := prevIndex + direction + len;
    if 0 <= prevIndex < len && (direction == 1 || direction == -1) {
      if x == 2 * len {
        ModTwice(len);
      } else if len <= x {
        ModOnce(x, len);
      } else {
        ModBelow(x, len);
      }
    }
  }

  /** `moveSlide`'s updater: `(prevIndex + direction + len) % len`. A step
      of one card on or back from a card lands on the neighbouring card,
      wrapping from the last to the first and from the first to the last. */
  function MoveIndex(prevIndex: int, direction: int, len: nat): (r: int)
    requires len > 0
    ensures 0 <= prevIndex < len && (direction == 1 || direction == -1) ==>
              0 <= r < len
              && r == if prevIndex + direction == len then 0
                      else if prevIndex + direction < 0 then len - 1
                      else prevIndex + direction
  {
    StepLands(prevIndex, direction, len);
    JsRem(prevIndex + direction + len, len)
  }

  /** On from the last card is the first. */
  lemma MoveWrapsForward(len: nat)
    requires len > 0
    ensures MoveIndex(len - 1, 1, len) == 0
  {
  }

  /** Back from the first card is the last. */
  lemma MoveWrapsBack(len: nat)
    requires len > 0
    ensures MoveIndex(0, -1, len) == len - 1
  {
  }

  /** On then back, or back then on, returns to the card one started from. */
  lemma MoveUndo(i: int, len: nat)
    requires 0 <= i < len
    ensures MoveIndex(MoveIndex(i, 1, len), -1, len) == i
    ensures MoveIndex(MoveIndex(i, -1, len), 1, len) == i
  {
  }

  /** The component's `index` cell. */
  class CarouselState {
    var index: int

    predicate Valid()
      reads this
    {
      0 <= index < ItemCount
    }

    constructor()
      ensures index == 0 && Valid()
    {
      index := 0;
    }

    /** `moveSlide(direction)`; the two buttons pass -1 and 1. */
    method MoveSlide(direction: int)
      modifies this
      ensures index == MoveIndex(old(index), direction, ItemCount)
      ensures old(Valid()) && (direction == 1 || direction == -1) ==> Valid()
    {
      index := MoveIndex(index, direction, ItemCount);
    }
  }
}
