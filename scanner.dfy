/**
 * The conflict scan of validateBooking: the query for the active bookings of
 * the same date and the loop over its results that looks for an overlap.
 */
module Scanner {
  import opened Wrappers
  import opened TimeOfDay
  import opened Overlap
  import opened Bookings

  /** The query filter: same date and status active; invalid and cancelled bookings never pass it. */
  predicate IsCandidate(d: Doc, date: string)
    ensures IsCandidate(d, date) ==> d.data.date == date && !d.data.status.Invalid? && !d.data.status.Cancelled?
  {
    d.data.date == date && d.data.status == Active
  }

  /** The documents the query returns, in store order. */
  function Candidates(docs: seq<Doc>, date: string): (r: seq<Doc>)
    ensures |r| <= |docs|
    ensures forall d :: d in r <==> d in docs && IsCandidate(d, date)
  {
    if docs == [] then []
    else (if IsCandidate(docs[0], date) then [docs[0]] else []) + Candidates(docs[1..], date)
  }

  /** The query distributes over concatenation, so it keeps store order. */
  lemma {:induction false} CandidatesAppend(a: seq<Doc>, b: seq<Doc>, date: string)
    ensures Candidates(a + b, date) == Candidates(a, date) + Candidates(b, date)
  {
    if a == [] {
      assert a + b == b;
    } else {
      assert (a + b)[0] == a[0];
      assert (a + b)[1..] == a[1..] + b;
      CandidatesAppend(a[1..], b, date);
    }
  }

  /** A document of another date, or with a status other than active, is never returned. */
  lemma CandidatesIgnoreNonCandidate(pre: seq<Doc>, x: Doc, post: seq<Doc>, date: string)
    requires !IsCandidate(x, date)
    ensures Candidates(pre + [x] + post, date) == Candidates(pre + post, date)
  {
    CandidatesAppend(pre + [x], post, date);
    CandidatesAppend(pre, [x], date);
    CandidatesAppend(pre, post, date);
    assert Candidates([x], date) == [] by {
      assert [x][1..] == [];
    }
  }

  /** What the scan reports. */
  datatype ScanResult = NoConflict | ConflictWith(doc: Doc) | Unreadable

  /**
   * The loop over the query results: documents with the booking's own id are
   * skipped; at the first other document the scan fails if a start time
   * cannot be read, reports that document if the ranges overlap, and
   * otherwise goes on.
   */
  function Scan(b: Booking, bookingId: string, docs: seq<Doc>): (r: ScanResult)
    ensures r.ConflictWith? ==> r.doc in docs && r.doc.id != bookingId && Conflicts(b, r.doc.data)
    ensures r.Unreadable? ==> exists d :: d in docs && d.id != bookingId && !Readable(b, d.data)
  {
    if docs == [] then NoConflict
    else if docs[0].id == bookingId then Scan(b, bookingId, docs[1..])
    else if !Readable(b, docs[0].data) then Unreadable
    else if Conflicts(b, docs[0].data) then ConflictWith(docs[0])
    else Scan(b, bookingId, docs[1..])
  }

  /** The scan stops at the first other document whose range overlaps, in store order. */
  lemma {:induction false} ScanReportsFirstConflict(b: Booking, bookingId: string, docs: seq<Doc>, k: nat)
    requires k < |docs| && docs[k].id != bookingId && Conflicts(b, docs[k].data)
    requires forall j :: 0 <= j < k && docs[j].id != bookingId ==> NoClash(b, docs[j].data)
    ensures Scan(b, bookingId, docs) == ConflictWith(docs[k])
  {
    if k > 0 {
      ScanReportsFirstConflict(b, bookingId, docs[1..], k - 1);
    }
  }

  /** The scan finds nothing exactly when every other document can be read and does not overlap. */
  lemma {:induction false} ScanClearIff(b: Booking, bookingId: string, docs: seq<Doc>)
    ensures Scan(b, bookingId, docs) == NoConflict
            <==> forall j :: 0 <= j < |docs| && docs[j].id != bookingId ==> NoClash(b, docs[j].data)
  {
    if docs != [] {
      ScanClearIff(b, bookingId, docs[1..]);
      assert forall j :: 1 <= j < |docs| ==> docs[j] == docs[1..][j - 1];
    }
  }

  /** Documents with the booking's own id never change the scan, wherever they stand. */
  lemma {:induction false} ScanSkipsSelf(b: Booking, bookingId: string, pre: seq<Doc>, self: Booking, post: seq<Doc>)
    ensures Scan(b, bookingId, pre + [Doc(bookingId, self)] + post) == Scan(b, bookingId, pre + post)
  {
    var s := Doc(bookingId, self);
    if pre == [] {
      assert pre + [s] + post == [s] + post && pre + post == post;
      assert ([s] + post)[0] == s && ([s] + post)[1..] == post;
    } else {
      assert (pre + [s] + post)[0] == pre[0] && (pre + post)[0] == pre[0];
      assert (pre + [s] + post)[1..] == pre[1..] + [s] + post;
      assert (pre + post)[1..] == pre[1..] + post;
      ScanSkipsSelf(b, bookingId, pre[1..], self, post);
    }
  }

  /**
   * The for loop of validateBooking, stopping early at the first other
   * document that overlaps or whose time cannot be read.
   */
  method FindConflict(booking: Booking, bookingId: string, docs: seq<Doc>) returns (r: ScanResult)
    ensures r == Scan(booking, bookingId, docs)
  {
    for i := 0 to |docs|
      invariant Scan(booking, bookingId, docs) == Scan(booking, bookingId, docs[i..])
    {
      assert docs[i..][0] == docs[i] && docs[i..][1..] == docs[i + 1..];
      if docs[i].id == bookingId {
        continue;
      }
      var existing := docs[i].data;
      var newStart := TimeToMinutes(booking.startTime);
      var existingStart := TimeToMinutes(existing.startTime);
      if newStart.None? || existingStart.None? {
        return Unreadable;
      }
      var newEnd := newStart.value + booking.durationMinutes;
      var existingEnd := existingStart.value + existing.durationMinutes;
      if TimesOverlap(newStart.value, newEnd, existingStart.value, existingEnd) {
        return ConflictWith(docs[i]);
      }
    }
    assert docs[|docs|..] == [];
    return NoConflict;
  }
}
