/** The half-open minute ranges [start, end) of bookings and when two of them overlap. */
module Overlap {

  function Max(a: int, b: int): (m: int) { if a < b then b else a }
  function Min(a: int, b: int): (m: int) { if a < b then a else b }

  /**
   * Whether [start1, end1) and [start2, end2) overlap. For non-empty ranges:
   * their intersection, from the later start to the earlier end, is not empty.
   */
  predicate TimesOverlap(start1: int, end1: int, start2: int, end2: int)
    ensures start1 < end1 && start2 < end2 ==>
              (TimesOverlap(start1, end1, start2, end2) <==> Max(start1, start2) < Min(end1, end2))
  {
    start1 < end2 && start2 < end1
  }

  /** Minute m lies in the half-open range [start, end). */
  predicate InRange(m: int, start: int, end: int) {
    start <= m < end
  }

  /** Overlap does not depend on which range is the new one. */
  lemma OverlapSymmetric(start1: int, end1: int, start2: int, end2: int)
    ensures TimesOverlap(start1, end1, start2, end2) == TimesOverlap(start2, end2, start1, end1)
  {
  }

  /** For non-empty ranges, overlapping means sharing at least one minute. */
  lemma OverlapIffSharedMinute(start1: int, end1: int, start2: int, end2: int)
    requires start1 < end1 && start2 < end2
    ensures TimesOverlap(start1, end1, start2, end2)
            <==> exists m :: InRange(m, start1, end1) && InRange(m, start2, end2)
  {
    if TimesOverlap(start1, end1, start2, end2) {
      var m := if start1 < start2 then start2 else start1;
      assert InRange(m, start1, end1) && InRange(m, start2, end2);
    }
  }

  /** A range that ends where another begins does not overlap it, in either order. */
  lemma AdjacentNeverOverlap(start1: int, end1: int, start2: int, end2: int)
    requires end1 == start2
    ensures !TimesOverlap(start1, end1, start2, end2)
    ensures !TimesOverlap(start2, end2, start1, end1)
  {
  }

  /** 10:00-11:00 against 11:00-11:30 is not a conflict. */
  lemma BackToBackSlots()
    ensures !TimesOverlap(600, 660, 660, 690)
    ensures !TimesOverlap(0, 60, 60, 120)
  {
    AdjacentNeverOverlap(600, 660, 660, 690);
    AdjacentNeverOverlap(0, 60, 60, 120);
  }

  /** An empty range [s, s) strictly inside another range does count as overlapping it. */
  lemma EmptyRangeInsideOverlaps(s: int, start: int, end: int)
    requires start < s < end
    ensures TimesOverlap(s, s, start, end)
  {
  }
}
