/**
 * The product carousel of js/main.js (`initProductsNav`): a current index
 * into the cards, moved one step forward or back with wrap-around. The
 * operands of `%` are never negative here, so JavaScript's remainder and
 * Dafny's agree.
 */
module Carousel {

  /** `(current + 1) % cards.length`. */
  function NextIndex(c: nat, n: nat): (r: nat)
    requires c < n
    ensures r < n
    ensures c + 1 < n ==> r == c + 1
    ensures c == n - 1 ==> r == 0
  {
    (c + 1) % n
  }

  /** `(current - 1 + cards.length) % cards.length`. */
  function PrevIndex(c: nat, n: nat): (r: nat)
    requires c < n
    ensures r < n
    ensures c > 0 ==> r == c - 1
    ensures c == 0 ==> r == n - 1
  {
    (c - 1 + n) % n
  }

  /** Next followed by previous, and previous followed by next, come back to
      the starting card. */
  lemma NextPrevInverse(c: nat, n: nat)
    requires c < n
    ensures PrevIndex(NextIndex(c, n), n) == c
    ensures NextIndex(PrevIndex(c, n), n) == c
  {
  }

  /** The index after pressing "next" `k` times from `c`. */
  function Advance(c: nat, n: nat, k: nat): (r: nat)
    requires c < n
    ensures r < n
  {
    if k == 0 then c else NextIndex(Advance(c, n, k - 1), n)
  }

  /** Before the end is reached, `k` presses move exactly `k` cards forward. */
  lemma {:induction false} AdvanceNoWrap(c: nat, n: nat, k: nat)
    requires c + k < n
    ensures Advance(c, n, k) == c + k
  {
    if k > 0 {
      AdvanceNoWrap(c, n, k - 1);
    }
  }

  /** `a` presses followed by `b` presses are `a + b` presses. */
  lemma {:induction false} AdvanceAdd(c: nat, n: nat, a: nat, b: nat)
    requires c < n
    ensures Advance(c, n, a + b) == Advance(Advance(c, n, a), n, b)
  {
    if b > 0 {
      AdvanceAdd(c, n, a, b - 1);
    }
  }

  /** Pressing "next" once per card goes all the way round, back to the
      starting card. */
  lemma AdvanceFullCycle(c: nat, n: nat)
    requires c < n
    ensures Advance(c, n, n) == c
  {
    AdvanceNoWrap(c, n, n - 1 - c);
    assert Advance(c, n, n - c) == 0;
    AdvanceAdd(c, n, n - c, c);
    AdvanceNoWrap(0, n, c);
  }

  /** The carousel: `cards.length` and the closure variable `current`. */
  class Slider {
    const cardCount: nat
    var current: nat

    ghost predicate Valid()
      reads this
    {
      current < cardCount
    }

    /** Starts on the first card; the source does not guard an empty grid
        (its `% 0` yields NaN), so at least one card is required. */
    constructor (cardCount: nat)
      requires cardCount >= 1
      ensures Valid() && this.cardCount == cardCount && current == 0
    {
      this.cardCount := cardCount;
      current := 0;
    }

    /** The "next" button. */
    method Next()
      requires Valid()
      modifies this
      ensures Valid() && current == NextIndex(old(current), cardCount)
    {
      current := (current + 1) % cardCount;
    }

    /** The "previous" button. */
    method Prev()
      requires Valid()
      modifies this
      ensures Valid() && current == PrevIndex(old(current), cardCount)
    {
      current := (current - 1 + cardCount) % cardCount;
    }
  }
}
