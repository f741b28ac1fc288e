/**
 * The scan as the JavaScript runs it when a start time contains no colon:
 * splitting on ':' gives a single part, the minutes part is undefined, and
 * the conversion yields NaN. Every comparison with NaN is false, so such a
 * booking is simply never found overlapping instead of being treated as an
 * error. Other start times with a colon are outside these members. In the
 * code some of them become numbers ("9:05" gives 545, "24:00" gives 1440)
 * and others become NaN ("10:3x"). The fail-closed model sends both kinds
 * to ValidationError once they are compared.
 */
module AsWritten {
  import opened Wrappers
  import opened TimeOfDay
  import opened Bookings
  import opened Scanner
  import opened Resolution

  /** A start time whose conversion the members below reproduce: a valid "HH:mm", or one the code turns into NaN. */
  predicate ConvertsAsModelled(t: string) {
    IsClockTime(t) || ':' !in t
  }

  /** The loop with NaN semantics: a time without a colon makes the comparison false, and the loop goes on. */
  function ScanAsWritten(b: Booking, bookingId: string, docs: seq<Doc>): (r: ScanResult)
    requires ConvertsAsModelled(b.startTime)
    requires forall d :: d in docs ==> ConvertsAsModelled(d.data.startTime)
    ensures !r.Unreadable?
    ensures r.ConflictWith? ==> r.doc in docs && r.doc.id != bookingId && Conflicts(b, r.doc.data)
  {
    if docs == [] then NoConflict
    else if docs[0].id != bookingId && Conflicts(b, docs[0].data) then ConflictWith(docs[0])
    else ScanAsWritten(b, bookingId, docs[1..])
  }

  /** The verdict as written: ValidationError only when the query fails, never because of a start time. */
  function VerdictAsWritten(docs: seq<Doc>, ev: Event): (r: Option<string>)
    requires ConvertsAsModelled(ev.booking.startTime)
    requires forall d :: d in docs ==> ConvertsAsModelled(d.data.startTime)
    ensures r == Some(ValidationError) <==> ev.queryFails
  {
    if ev.queryFails then Some(ValidationError)
    else match ScanAsWritten(ev.booking, ev.bookingId, Candidates(docs, ev.booking.date))
      case ConflictWith(_) => Some(SlotTaken)
      case _ => None
  }

  /** As written, a booking whose start time has no colon is never found overlapping anything. */
  lemma {:induction false} ColonlessStartNeverConflictsAsWritten(b: Booking, bookingId: string, docs: seq<Doc>)
    requires ':' !in b.startTime
    requires forall d :: d in docs ==> ConvertsAsModelled(d.data.startTime)
    ensures ScanAsWritten(b, bookingId, docs) == NoConflict
  {
    if docs != [] {
      ColonlessStartNeverConflictsAsWritten(b, bookingId, docs[1..]);
    }
  }

  /** "10h30" against an active 10:00 booking: the code keeps it active, the fail-closed model invalidates it. */
  lemma MalformedStartTimeSurvivesAsWritten()
    ensures var docs := [Doc("b1", Booking("2024-06-01", "10:00", 60, Active, None)),
                         Doc("b2", Booking("2024-06-01", "10h30", 30, Active, None))];
            var ev := Event("b2", docs[1].data, false);
            ConvertsAsModelled(ev.booking.startTime) &&
            (forall d :: d in docs ==> ConvertsAsModelled(d.data.startTime)) &&
            VerdictAsWritten(docs, ev) == None && Verdict(docs, ev) == Some(ValidationError)
  {
    var docs := [Doc("b1", Booking("2024-06-01", "10:00", 60, Active, None)),
                 Doc("b2", Booking("2024-06-01", "10h30", 30, Active, None))];
    var ev := Event("b2", docs[1].data, false);
    assert !IsClockTime("10h30") && ':' !in "10h30";
    assert IsClockTime("10:00");
    ColonlessStartNeverConflictsAsWritten(ev.booking, ev.bookingId, Candidates(docs, ev.booking.date));
    UnreadableStartFailsClosed(docs, ev, docs[0]);
  }
}
