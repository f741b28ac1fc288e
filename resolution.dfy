/**
 * The verdict of validateBooking and its single write to the booking's own
 * record, over a store abstracted as the sequence of one court's booking
 * documents.
 */
module Resolution {
  import opened Wrappers
  import opened TimeOfDay
  import opened Bookings
  import opened Scanner

  /**
   * One "booking created" event: the id of the new document, the data it was
   * created with, and whether the store's query fails during this run.
   */
  datatype Event = Event(bookingId: string, booking: Booking, queryFails: bool)

  /**
   * The reason the new booking is marked invalid with, or None when its
   * record is left untouched. A failing query or an unreadable time is fail
   * closed: the booking is invalidated with ValidationError.
   */
  function Verdict(docs: seq<Doc>, ev: Event): (r: Option<string>)
    ensures ev.queryFails ==> r == Some(ValidationError)
    ensures r == None || r == Some(SlotTaken) || r == Some(ValidationError)
    ensures r == None ==> Scan(ev.booking, ev.bookingId, Candidates(docs, ev.booking.date)) == NoConflict
  {
    if ev.queryFails then Some(ValidationError)
    else match Scan(ev.booking, ev.bookingId, Candidates(docs, ev.booking.date))
      case NoConflict => None
      case ConflictWith(_) => Some(SlotTaken)
      case Unreadable => Some(ValidationError)
  }

  /**
   * The partial update of the document with the given id: its status becomes
   * invalid and its reason is recorded; its other fields and every other
   * document stay as they were. A missing id writes nothing.
   */
  function MarkInvalid(docs: seq<Doc>, id: string, reason: string): (r: seq<Doc>)
    ensures |r| == |docs|
    ensures forall i :: 0 <= i < |docs| && docs[i].id != id ==> r[i] == docs[i]
    ensures forall i :: 0 <= i < |docs| && docs[i].id == id ==>
              r[i].id == id && SameSlot(r[i].data, docs[i].data) &&
              r[i].data.status == Invalid && r[i].data.invalidReason == Some(reason)
  {
    seq(|docs|, i requires 0 <= i < |docs| =>
      if docs[i].id == id
      then Doc(id, docs[i].data.(status := Invalid, invalidReason := Some(reason)))
      else docs[i])
  }

  /**
   * The store after one validation run. Only the new booking's own record can
   * change, only from whatever it was to invalid with one of the two reasons,
   * and nothing ever becomes active.
   */
  function Validated(docs: seq<Doc>, ev: Event): (r: seq<Doc>)
    ensures |r| == |docs|
    ensures forall i :: 0 <= i < |docs| && docs[i].id != ev.bookingId ==> r[i] == docs[i]
    ensures forall i :: 0 <= i < |docs| ==> r[i].id == docs[i].id && SameSlot(r[i].data, docs[i].data)
    ensures forall i :: 0 <= i < |docs| && r[i].data.status == Active ==> docs[i].data.status == Active
    ensures r == docs || forall i :: 0 <= i < |docs| && docs[i].id == ev.bookingId ==>
              r[i].data.status == Invalid &&
              (r[i].data.invalidReason == Some(SlotTaken) || r[i].data.invalidReason == Some(ValidationError))
  {
    match Verdict(docs, ev)
    case None => docs
    case Some(reason) => MarkInvalid(docs, ev.bookingId, reason)
  }

  /** The booking is left untouched exactly when the query answers and every other active booking of its date is readable and disjoint. */
  lemma VerdictClearIff(docs: seq<Doc>, ev: Event)
    ensures Verdict(docs, ev) == None
            <==> !ev.queryFails &&
                 forall d :: d in docs && IsCandidate(d, ev.booking.date) && d.id != ev.bookingId ==> NoClash(ev.booking, d.data)
  {
    var cands := Candidates(docs, ev.booking.date);
    ScanClearIff(ev.booking, ev.bookingId, cands);
    assert forall j :: 0 <= j < |cands| ==> cands[j] in cands;
    if !ev.queryFails && forall d :: d in docs && IsCandidate(d, ev.booking.date) && d.id != ev.bookingId ==> NoClash(ev.booking, d.data) {
      assert Scan(ev.booking, ev.bookingId, cands) == NoConflict;
    }
  }

  /** An invalidation for an unavailable slot names a real overlap with another active booking of the same date. */
  lemma SlotTakenOnlyOnOverlap(docs: seq<Doc>, ev: Event)
    requires Verdict(docs, ev) == Some(SlotTaken)
    ensures !ev.queryFails
    ensures exists d :: d in docs && IsCandidate(d, ev.booking.date) && d.id != ev.bookingId && Conflicts(ev.booking, d.data)
  {
    var r := Scan(ev.booking, ev.bookingId, Candidates(docs, ev.booking.date));
    assert SlotTaken != ValidationError by {
      assert SlotTaken[0] != ValidationError[0];
    }
    assert r.ConflictWith?;
  }

  /**
   * When the query answers and all times can be read, an overlapping other
   * active booking of the same date always invalidates the new one.
   */
  lemma OverlapInvalidates(docs: seq<Doc>, ev: Event, other: Doc)
    requires !ev.queryFails
    requires forall d :: d in docs && IsCandidate(d, ev.booking.date) && d.id != ev.bookingId ==> Readable(ev.booking, d.data)
    requires other in docs && IsCandidate(other, ev.booking.date) && other.id != ev.bookingId
    requires Conflicts(ev.booking, other.data)
    ensures Verdict(docs, ev) == Some(SlotTaken)
    ensures forall i :: 0 <= i < |docs| && docs[i].id == ev.bookingId ==>
              Validated(docs, ev)[i].data.status == Invalid &&
              Validated(docs, ev)[i].data.invalidReason == Some(SlotTaken)
  {
    VerdictClearIff(docs, ev);
    var r := Scan(ev.booking, ev.bookingId, Candidates(docs, ev.booking.date));
    assert !r.Unreadable?;
  }

  /**
   * When the query answers and every other active booking of the date is
   * readable and disjoint, the store is left exactly as it was.
   */
  lemma NoOverlapLeavesStoreUnchanged(docs: seq<Doc>, ev: Event)
    requires !ev.queryFails
    requires forall d :: d in docs && IsCandidate(d, ev.booking.date) && d.id != ev.bookingId ==> NoClash(ev.booking, d.data)
    ensures Validated(docs, ev) == docs
  {
    VerdictClearIff(docs, ev);
  }

  /** When the query fails, the booking's record ends invalid with ValidationError, never active. */
  lemma QueryFailureFailsClosed(docs: seq<Doc>, ev: Event)
    requires ev.queryFails
    ensures forall i :: 0 <= i < |docs| && docs[i].id == ev.bookingId ==>
              Validated(docs, ev)[i].data.status == Invalid &&
              Validated(docs, ev)[i].data.invalidReason == Some(ValidationError)
  {
  }

  /** A booking whose start time cannot be read is invalidated with ValidationError as soon as there is another active booking of its date. */
  lemma UnreadableStartFailsClosed(docs: seq<Doc>, ev: Event, other: Doc)
    requires !IsClockTime(ev.booking.startTime)
    requires other in docs && IsCandidate(other, ev.booking.date) && other.id != ev.bookingId
    ensures Verdict(docs, ev) == Some(ValidationError)
  {
    VerdictClearIff(docs, ev);
    var r := Scan(ev.booking, ev.bookingId, Candidates(docs, ev.booking.date));
    assert !r.ConflictWith?;
  }

  /** A document of another date, or not active, never influences the verdict, wherever it stands in the store. */
  lemma NonCandidateNeverDecides(pre: seq<Doc>, x: Doc, post: seq<Doc>, ev: Event)
    requires !IsCandidate(x, ev.booking.date)
    ensures Verdict(pre + [x] + post, ev) == Verdict(pre + post, ev)
  {
    CandidatesIgnoreNonCandidate(pre, x, post, ev.booking.date);
  }

  /**
   * One court's bookings collection, updated in place by the validator.
   * Valid() is the shape the store keeps between runs: document ids are
   * unique. The theorems of Sequential take that as their premise, and
   * ValidateBooking preserves it.
   */
  class BookingStore {
    var records: seq<Doc>

    ghost predicate Valid()
      reads this
    {
      UniqueIds(records)
    }

    constructor (initial: seq<Doc>)
      requires UniqueIds(initial)
      ensures Valid() && records == initial
    {
      records := initial;
    }

    /**
     * validateBooking for the document bookingId created with the data
     * booking: query, scan, and at most one partial update of that document.
     */
    method ValidateBooking(bookingId: string, booking: Booking, queryFails: bool)
      requires Valid()
      modifies this
      ensures Valid()
      ensures records == Validated(old(records), Event(bookingId, booking, queryFails))
    {
      if queryFails {
        records := MarkInvalid(records, bookingId, ValidationError);
        return;
      }
      var existing := Candidates(records, booking.date);
      var found := FindConflict(booking, bookingId, existing);
      match found {
        case ConflictWith(_) =>
          records := MarkInvalid(records, bookingId, SlotTaken);
        case Unreadable =>
          records := MarkInvalid(records, bookingId, ValidationError);
        case NoConflict =>
      }
    }
  }
}
