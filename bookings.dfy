/**
 * The booking records of one court's bookings collection: the data of a
 * booking document, the document (id plus data), and the minute range a
 * booking occupies.
 */
module Bookings {
  import opened Wrappers
  import opened TimeOfDay
  import opened Overlap

  datatype Status = Active | Invalid | Cancelled

  /** The reason written when an overlapping active booking exists. */
  const SlotTaken: string := "Time slot no longer available"
  /** The reason written when validation could not complete (fail closed). */
  const ValidationError: string := "Validation error"

  /** The fields of a booking document. */
  datatype Booking = Booking(
    date: string,
    startTime: string,
    durationMinutes: int,
    status: Status,
    invalidReason: Option<string>)

  /** A document of the collection: its id and its data. */
  datatype Doc = Doc(id: string, data: Booking)

  /** The half-open minute range [start, end). */
  datatype Span = Span(start: int, end: int)

  /**
   * The range a booking occupies: it starts at the minute of its start time
   * and lasts durationMinutes. None when the start time cannot be read.
   */
  function BookingSpan(b: Booking): (r: Option<Span>)
    ensures r.Some? <==> IsClockTime(b.startTime)
    ensures r.Some? ==> Some(r.value.start) == TimeToMinutes(b.startTime)
    ensures r.Some? ==> 0 <= r.value.start < MinutesPerDay && r.value.end - r.value.start == b.durationMinutes
  {
    match TimeToMinutes(b.startTime)
    case Some(start) => Some(Span(start, start + b.durationMinutes))
    case None => None
  }

  /** Both start times can be read. */
  predicate Readable(b: Booking, other: Booking) {
    IsClockTime(b.startTime) && IsClockTime(other.startTime)
  }

  /**
   * The ranges of the two bookings overlap (false when a time cannot be
   * read). Two bookings whose durations add up to nothing never conflict.
   */
  predicate Conflicts(b: Booking, other: Booking)
    ensures Conflicts(b, other) ==> Readable(b, other) && b.durationMinutes + other.durationMinutes > 0
  {
    match (BookingSpan(b), BookingSpan(other))
    case (Some(x), Some(y)) => TimesOverlap(x.start, x.end, y.start, y.end)
    case _ => false
  }

  /** Both times can be read and the ranges are disjoint. */
  predicate NoClash(b: Booking, other: Booking) {
    Readable(b, other) && !Conflicts(b, other)
  }

  /** The two bookings claim the same slot fields: date, start time and duration. */
  predicate SameSlot(a: Booking, b: Booking) {
    a.date == b.date && a.startTime == b.startTime && a.durationMinutes == b.durationMinutes
  }

  /** Whether two bookings conflict depends on neither booking's status or reason, and not on the order. */
  lemma ConflictsSymmetricAndSlotOnly(a: Booking, a': Booking, b: Booking, b': Booking)
    requires SameSlot(a, a') && SameSlot(b, b')
    ensures Conflicts(a, b) == Conflicts(a', b') == Conflicts(b', a')
    ensures Readable(a, b) == Readable(a', b') == Readable(b', a')
  {
    assert BookingSpan(a) == BookingSpan(a');
    assert BookingSpan(b) == BookingSpan(b');
  }

  /** No two documents share an id (document ids are unique within a collection). */
  predicate UniqueIds(docs: seq<Doc>) {
    forall i, j :: 0 <= i < |docs| && 0 <= j < |docs| && docs[i].id == docs[j].id ==> i == j
  }
}
