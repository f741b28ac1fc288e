/** Concrete runs of the validator on one court's bookings of 2024-06-01. */
module Scenarios {
  import opened Wrappers
  import opened Bookings
  import opened Scanner
  import opened Resolution
  import opened Sequential

  const Day: string := "2024-06-01"

  function Created(start: string, minutes: int): (b: Booking) {
    Booking(Day, start, minutes, Active, None)
  }

  /** 10:30 for 30 minutes against an active 10:00 for 60: the new booking loses the slot. */
  lemma OverlappingBookingIsInvalidated()
    ensures var docs := [Doc("b1", Created("10:00", 60)), Doc("b2", Created("10:30", 30))];
            Validated(docs, Event("b2", Created("10:30", 30), false))
            == [docs[0], Doc("b2", Booking(Day, "10:30", 30, Invalid, Some(SlotTaken)))]
  {
    var docs := [Doc("b1", Created("10:00", 60)), Doc("b2", Created("10:30", 30))];
    var ev := Event("b2", Created("10:30", 30), false);
    OverlapInvalidates(docs, ev, docs[0]);
  }

  /** 11:00 for 30 minutes right after an active 10:00 for 60: the store is left untouched. */
  lemma BackToBackBookingSurvives()
    ensures var docs := [Doc("b1", Created("10:00", 60)), Doc("b2", Created("11:00", 30))];
            Validated(docs, Event("b2", Created("11:00", 30), false)) == docs
  {
    var docs := [Doc("b1", Created("10:00", 60)), Doc("b2", Created("11:00", 30))];
    var ev := Event("b2", Created("11:00", 30), false);
    assert Candidates(docs, Day) == docs;
  }

  /** A cancelled booking on the same slot does not block the new one. */
  lemma CancelledBookingDoesNotBlock()
    ensures var docs := [Doc("b1", Booking(Day, "10:00", 60, Cancelled, None)), Doc("b2", Created("10:00", 60))];
            Validated(docs, Event("b2", Created("10:00", 60), false)) == docs
  {
    var docs := [Doc("b1", Booking(Day, "10:00", 60, Cancelled, None)), Doc("b2", Created("10:00", 60))];
    assert Candidates(docs, Day) == [docs[1]];
  }

  /** When the query fails, the new booking is invalidated with ValidationError. */
  lemma QueryErrorInvalidates()
    ensures var docs := [Doc("b1", Created("10:00", 60)), Doc("b2", Created("11:00", 30))];
            Validated(docs, Event("b2", Created("11:00", 30), true))
            == [docs[0], Doc("b2", Booking(Day, "11:00", 30, Invalid, Some(ValidationError)))]
  {
  }

  /**
   * Two bookings of the identical slot, both created before either is
   * validated: the one validated first sees the other and loses; the one
   * validated second no longer sees an active rival and keeps the slot.
   */
  lemma IdenticalSlotsOneSurvives()
    ensures var docs := [Doc("a", Created("10:00", 60)), Doc("b", Created("10:00", 60))];
            RunAll(docs, [Event("a", Created("10:00", 60), false), Event("b", Created("10:00", 60), false)])
            == [Doc("a", Booking(Day, "10:00", 60, Invalid, Some(SlotTaken))), Doc("b", Created("10:00", 60))]
  {
    var docs := [Doc("a", Created("10:00", 60)), Doc("b", Created("10:00", 60))];
    var ea := Event("a", Created("10:00", 60), false);
    var eb := Event("b", Created("10:00", 60), false);
    OverlapInvalidates(docs, ea, docs[1]);
    var mid := Validated(docs, ea);
    assert mid == [Doc("a", Booking(Day, "10:00", 60, Invalid, Some(SlotTaken))), docs[1]];
    assert Candidates(mid, Day) == [docs[1]];
    assert Validated(mid, eb) == mid;
    assert [ea, eb][1..] == [eb];
    assert [eb][1..] == [];
  }

  /**
   * A booking validated while it is alone keeps the slot; a rival created
   * afterwards for the same slot sees it and loses.
   */
  lemma LaterRivalLoses()
    ensures var first := Validated([Doc("a", Created("10:00", 60))], Event("a", Created("10:00", 60), false));
            first == [Doc("a", Created("10:00", 60))] &&
            Validated(first + [Doc("b", Created("10:30", 60))], Event("b", Created("10:30", 60), false))
            == [Doc("a", Created("10:00", 60)), Doc("b", Booking(Day, "10:30", 60, Invalid, Some(SlotTaken)))]
  {
    var alone := [Doc("a", Created("10:00", 60))];
    assert Candidates(alone, Day) == alone;
    var both := alone + [Doc("b", Created("10:30", 60))];
    OverlapInvalidates(both, Event("b", Created("10:30", 60), false), both[0]);
  }
}
