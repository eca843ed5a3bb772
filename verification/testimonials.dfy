/** The testimonial carousel of the "Client Reviews" section: a cursor over a
    fixed, non-empty list of testimonials, moved by the previous/next arrows
    and by one indicator dot per testimonial. */
module Testimonials {

  /** JavaScript's `%` on numbers: the remainder takes the sign of the
      dividend (truncating division), unlike Dafny's Euclidean `%`. */
  function JsRem(a: int, b: int): (r: int)
    requires b > 0
    ensures a >= 0 ==> 0 <= r < b
    ensures a < 0 ==> -b < r <= 0
    ensures 0 <= a < b ==> r == a
    ensures b <= a < 2 * b ==> r == a - b
    ensures -b < a <= 0 ==> r == a
  {
    if a >= 0 then
      ModOfOneLap(a, b);
      a % b
    else -((-a) % b)
  }

  /** Dafny's `%` on a non-negative dividend below two laps of the divisor. */
  lemma ModOfOneLap(a: int, b: int)
    requires 0 <= a && b > 0
    ensures a < b ==> a % b == a
    ensures b <= a < 2 * b ==> a % b == a - b
  {
  }

  /** A testimonial, reduced to its id and the rating that sets how many
      stars are drawn. */
  datatype Testimonial = Testimonial(id: nat, rating: nat)

  /** The four testimonials, in display order. */
  const TestimonialList: seq<Testimonial> := [
    Testimonial(1, 5),
    Testimonial(2, 5),
    Testimonial(3, 5),
    Testimonial(4, 5)
  ]

  /** The id of the section element that holds the carousel. */
  const SectionId: string := "testimonials"

  /** The index shown after the "next" arrow: `(i + 1) % n`. */
  function NextIndex(i: nat, n: nat): (r: nat)
    requires n > 0
    ensures r < n
    ensures i < n ==> r == (if i == n - 1 then 0 else i + 1)
  {
    JsRem(i + 1, n)
  }

  /** The index shown after the "previous" arrow: `(i - 1 + n) % n`. */
  function PrevIndex(i: nat, n: nat): (r: nat)
    requires n > 0
    ensures r < n
    ensures i < n ==> r == (if i == 0 then n - 1 else i - 1)
  {
    JsRem(i - 1 + n, n)
  }

  /** Without the `+ n` term, "previous" from the first testimonial would
      compute JavaScript's `-1 % n`, which is -1 and names no testimonial. */
  lemma UnguardedPrevLeavesRange(n: nat)
    requires n > 1
    ensures JsRem(0 - 1, n) == -1
    ensures JsRem(0 - 1 + n, n) == n - 1
  {
  }

  lemma NextThenPrev(i: nat, n: nat)
    requires i < n
    ensures PrevIndex(NextIndex(i, n), n) == i
  {
  }

  lemma PrevThenNext(i: nat, n: nat)
    requires i < n
    ensures NextIndex(PrevIndex(i, n), n) == i
  {
  }

  /** The index after `k` clicks on the "next" arrow. */
  function NextTimes(i: nat, k: nat, n: nat): (r: nat)
    requires i < n
    ensures r < n
  {
    if k == 0 then i else NextIndex(NextTimes(i, k - 1, n), n)
  }

  lemma {:induction false} NextTimesAdd(i: nat, a: nat, b: nat, n: nat)
    requires i < n
    ensures NextTimes(i, a + b, n) == NextTimes(NextTimes(i, a, n), b, n)
  {
    if b > 0 {
      NextTimesAdd(i, a, b - 1, n);
    }
  }

  /** Until the end of the list is reached, each "next" adds one. */
  lemma {:induction false} NextTimesNoWrap(i: nat, k: nat, n: nat)
    requires i + k < n
    ensures NextTimes(i, k, n) == i + k
  {
    if k > 0 {
      NextTimesNoWrap(i, k - 1, n);
    }
  }

  /** Clicking "next" as many times as there are testimonials comes back to
      the testimonial one started from. */
  lemma {:induction false} NextFullCycle(i: nat, n: nat)
    requires i < n
    ensures NextTimes(i, n, n) == i
  {
    NextTimesAdd(i, n - i, i, n);
    NextTimesNoWrap(i, n - i - 1, n);
    assert NextTimes(i, n - i, n) == 0;
    NextTimesNoWrap(0, i, n);
  }

  /** A click on the carousel's controls. */
  datatype Click = NextClick | PrevClick | IndicatorClick(index: nat)

  /** Indicator dots exist only for the indices of the list. */
  predicate ClicksWithin(clicks: seq<Click>, n: nat)
  {
    forall k :: 0 <= k < |clicks| ==> clicks[k].IndicatorClick? ==> clicks[k].index < n
  }

  /** The index after one click; a dot click names an existing index. */
  function Step(i: nat, c: Click, n: nat): (r: nat)
    requires n > 0
    requires c.IndicatorClick? ==> c.index < n
    ensures r < n
  {
    match c
    case NextClick => NextIndex(i, n)
    case PrevClick => PrevIndex(i, n)
    case IndicatorClick(j) => j
  }

  /** The index after a sequence of clicks; it never leaves the list. */
  function Run(i: nat, clicks: seq<Click>, n: nat): (r: nat)
    requires i < n
    requires ClicksWithin(clicks, n)
    ensures r < n
    decreases |clicks|
  {
    if clicks == [] then i
    else
      assert clicks[0].IndicatorClick? ==> clicks[0].index < n;
      Run(Step(i, clicks[0], n), clicks[1..], n)
  }

  /** Whether each indicator dot is drawn as the active one. */
  function IndicatorStates(current: nat, n: nat): (r: seq<bool>)
    ensures |r| == n
    ensures forall j :: 0 <= j < n ==> r[j] == (j == current)
  {
    seq(n, j => j == current)
  }

  /** Exactly one dot, the one of the current testimonial, is active. */
  lemma OneIndicatorActive(current: nat, n: nat)
    requires current < n
    ensures (set j | 0 <= j < n && IndicatorStates(current, n)[j]) == {current}
  {
    var active := set j | 0 <= j < n && IndicatorStates(current, n)[j];
    assert current in active;
    forall j | j in active ensures j == current {
    }
  }

  /** The keys of the star icons drawn for a rating: one per point, keyed by
      position, so the keys are pairwise distinct. */
  function StarKeys(rating: nat): (keys: seq<nat>)
    ensures |keys| == rating
    ensures forall a, b :: 0 <= a < b < |keys| ==> keys[a] != keys[b]
  {
    seq(rating, i => i)
  }

  lemma EveryTestimonialShowsFiveStars(k: nat)
    requires k < |TestimonialList|
    ensures |StarKeys(TestimonialList[k].rating)| == 5
  {
  }

  /** The state of one carousel: the index of the testimonial on screen. */
  class Carousel {
    var currentIndex: nat

    ghost predicate Valid()
      reads this
    {
      currentIndex < |TestimonialList|
    }

    constructor ()
      ensures Valid() && currentIndex == 0
    {
      currentIndex := 0;
    }

    method NextTestimonial()
      requires Valid()
      modifies this
      ensures Valid()
      ensures currentIndex == NextIndex(old(currentIndex), |TestimonialList|)
    {
      currentIndex := NextIndex(currentIndex, |TestimonialList|);
    }

    method PrevTestimonial()
      requires Valid()
      modifies this
      ensures Valid()
      ensures currentIndex == PrevIndex(old(currentIndex), |TestimonialList|)
    {
      currentIndex := PrevIndex(currentIndex, |TestimonialList|);
    }

    /** A click on the indicator dot for `index`. */
    method SelectIndicator(index: nat)
      requires Valid() && index < |TestimonialList|
      modifies this
      ensures Valid() && currentIndex == index
      ensures forall j :: 0 <= j < |TestimonialList| ==>
                (IndicatorStates(currentIndex, |TestimonialList|)[j] <==> j == index)
    {
      currentIndex := index;
    }

    /** The testimonial on screen. */
    function Current(): (t: Testimonial)
      reads this
      requires Valid()
      ensures t in TestimonialList
    {
      TestimonialList[currentIndex]
    }

    /** The star icons on screen: as many as the current rating. */
    function StarsShown(): (keys: seq<nat>)
      reads this
      requires Valid()
      ensures |keys| == Current().rating
    {
      StarKeys(Current().rating)
    }
  }
}
