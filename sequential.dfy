/**
 * Validation runs for several created bookings executed one after another on
 * the shared store, and what the "only one of two competing bookings gets
 * the slot" claim of validateBooking amounts to under that ordering. The
 * store holds every booking the runs concern before the first run: no
 * document is created between runs.
 */
module Sequential {
  import opened Wrappers
  import opened Bookings
  import opened Scanner
  import opened Resolution

  /** The store after the validation runs of evs, in that order. */
  function RunAll(docs: seq<Doc>, evs: seq<Event>): (r: seq<Doc>)
    ensures |r| == |docs|
    ensures forall i :: 0 <= i < |docs| ==> r[i].id == docs[i].id && SameSlot(r[i].data, docs[i].data)
    ensures forall i :: 0 <= i < |docs| && r[i].data.status == Active ==> docs[i].data.status == Active
    decreases |evs|
  {
    if evs == [] then docs else RunAll(Validated(docs, evs[0]), evs[1..])
  }

  /** The event carries the slot its document is stored with. */
  predicate MatchesStoredSlot(docs: seq<Doc>, ev: Event) {
    forall i :: 0 <= i < |docs| && docs[i].id == ev.bookingId ==> SameSlot(docs[i].data, ev.booking)
  }

  /** If document k is active, no other active booking of its date overlaps it, and all their times can be read. */
  predicate Exclusive(docs: seq<Doc>, k: nat)
    requires k < |docs|
  {
    docs[k].data.status == Active ==>
      forall j :: 0 <= j < |docs| && j != k && IsCandidate(docs[j], docs[k].data.date) ==>
        NoClash(docs[k].data, docs[j].data)
  }

  /** A validation run leaves its own booking either invalid or exclusive. */
  lemma StepEstablishes(docs: seq<Doc>, ev: Event, k: nat)
    requires UniqueIds(docs) && k < |docs| && docs[k].id == ev.bookingId && MatchesStoredSlot(docs, ev)
    ensures Exclusive(Validated(docs, ev), k)
  {
    var r := Validated(docs, ev);
    if r[k].data.status == Active {
      assert Verdict(docs, ev) == None;
      VerdictClearIff(docs, ev);
      forall j | 0 <= j < |r| && j != k && IsCandidate(r[j], r[k].data.date)
        ensures NoClash(r[k].data, r[j].data)
      {
        assert docs[j] in docs;
        ConflictsSymmetricAndSlotOnly(ev.booking, docs[k].data, docs[j].data, docs[j].data);
      }
    }
  }

  /** Later validation runs only invalidate, so an exclusive booking stays exclusive. */
  lemma StepKeepsExclusive(docs: seq<Doc>, ev: Event, k: nat)
    requires k < |docs| && Exclusive(docs, k)
    ensures Exclusive(Validated(docs, ev), k)
  {
    var r := Validated(docs, ev);
    if r[k].data.status == Active {
      forall j | 0 <= j < |r| && j != k && IsCandidate(r[j], r[k].data.date)
        ensures NoClash(r[k].data, r[j].data)
      {
        ConflictsSymmetricAndSlotOnly(docs[k].data, r[k].data, docs[j].data, r[j].data);
      }
    }
  }

  /** An exclusive booking stays exclusive through any sequence of later runs. */
  lemma {:induction false} RunAllKeepsExclusive(docs: seq<Doc>, evs: seq<Event>, k: nat)
    requires k < |docs| && Exclusive(docs, k)
    ensures Exclusive(RunAll(docs, evs), k)
    decreases |evs|
  {
    if evs != [] {
      StepKeepsExclusive(docs, evs[0], k);
      RunAllKeepsExclusive(Validated(docs, evs[0]), evs[1..], k);
    }
  }

  /** A validation run keeps ids unique and every event matching its stored slot. */
  lemma StepKeepsStoreShape(docs: seq<Doc>, ev: Event, evs: seq<Event>)
    requires UniqueIds(docs) && forall e | e in evs :: MatchesStoredSlot(docs, e)
    ensures UniqueIds(Validated(docs, ev))
    ensures forall e | e in evs :: MatchesStoredSlot(Validated(docs, ev), e)
  {
    var r := Validated(docs, ev);
    forall e | e in evs
      ensures MatchesStoredSlot(r, e)
    {
      assert forall i :: 0 <= i < |docs| && r[i].id == e.bookingId ==> SameSlot(docs[i].data, e.booking);
    }
  }

  /**
   * After the runs of evs, a booking whose creation event is among them and
   * which is still active shares its date with no overlapping active booking.
   */
  lemma {:induction false} ValidatedSurvivorIsExclusive(docs: seq<Doc>, evs: seq<Event>, i: nat, k: nat)
    requires UniqueIds(docs) && forall e | e in evs :: MatchesStoredSlot(docs, e)
    requires i < |evs| && k < |docs| && evs[i].bookingId == docs[k].id
    ensures Exclusive(RunAll(docs, evs), k)
    decreases |evs|
  {
    var next := Validated(docs, evs[0]);
    if i == 0 {
      StepEstablishes(docs, evs[0], k);
      RunAllKeepsExclusive(next, evs[1..], k);
    } else {
      StepKeepsStoreShape(docs, evs[0], evs[1..]);
      assert evs[1..][i - 1] == evs[i];
      ValidatedSurvivorIsExclusive(next, evs[1..], i - 1, k);
    }
  }

  /**
   * Of two overlapping bookings of the same date, both stored before the
   * first run, at most one is active once either has been validated.
   */
  lemma AtMostOneOfTwoSurvives(docs: seq<Doc>, evs: seq<Event>, i: nat, k: nat, j: nat)
    requires UniqueIds(docs) && forall e | e in evs :: MatchesStoredSlot(docs, e)
    requires i < |evs| && k < |docs| && evs[i].bookingId == docs[k].id
    requires j < |docs| && j != k && docs[j].data.date == docs[k].data.date
    requires Conflicts(docs[k].data, docs[j].data) || Conflicts(docs[j].data, docs[k].data)
    ensures !(RunAll(docs, evs)[k].data.status == Active && RunAll(docs, evs)[j].data.status == Active)
  {
    var fin := RunAll(docs, evs);
    ValidatedSurvivorIsExclusive(docs, evs, i, k);
    ConflictsSymmetricAndSlotOnly(docs[k].data, fin[k].data, docs[j].data, fin[j].data);
  }

  /** Once every initially active booking has been validated, no two active bookings of a date overlap. */
  lemma NoDoubleBookingAfterAllValidated(docs: seq<Doc>, evs: seq<Event>)
    requires UniqueIds(docs) && forall e | e in evs :: MatchesStoredSlot(docs, e)
    requires forall k :: 0 <= k < |docs| && docs[k].data.status == Active ==>
               exists i :: 0 <= i < |evs| && evs[i].bookingId == docs[k].id
    ensures var fin := RunAll(docs, evs);
            forall k, j ::
              (0 <= k < |fin| && 0 <= j < |fin| && k != j && IsCandidate(fin[k], fin[j].data.date) && IsCandidate(fin[j], fin[k].data.date))
              ==> NoClash(fin[k].data, fin[j].data)
  {
    var fin := RunAll(docs, evs);
    forall k | 0 <= k < |docs| && fin[k].data.status == Active
      ensures Exclusive(fin, k)
    {
      var i :| 0 <= i < |evs| && evs[i].bookingId == docs[k].id;
      ValidatedSurvivorIsExclusive(docs, evs, i, k);
    }
  }

  /** The two documents k and j are the only active bookings of the date. */
  predicate OnlyRivals(docs: seq<Doc>, k: nat, j: nat, date: string) {
    forall m :: 0 <= m < |docs| && IsCandidate(docs[m], date) ==> m == k || m == j
  }

  /**
   * When the query answers, the run of k's own event, while j is no longer
   * active, finds no rival and leaves the store as it was.
   */
  lemma LoneRivalKeepsSlot(docs: seq<Doc>, ev: Event, k: nat, j: nat)
    requires UniqueIds(docs) && k < |docs| && j < |docs| && k != j
    requires ev.bookingId == docs[k].id && MatchesStoredSlot(docs, ev) && !ev.queryFails
    requires OnlyRivals(docs, k, j, docs[k].data.date) && docs[j].data.status != Active
    ensures Validated(docs, ev) == docs
  {
    forall d | d in docs
      ensures !(IsCandidate(d, ev.booking.date) && d.id != ev.bookingId)
    {
      var m :| 0 <= m < |docs| && docs[m] == d;
    }
    VerdictClearIff(docs, ev);
  }

  /** Without query failures, one run never leaves neither of the two only rivals active. */
  lemma StepKeepsOneOfTwo(docs: seq<Doc>, ev: Event, k: nat, j: nat)
    requires UniqueIds(docs) && k < |docs| && j < |docs| && k != j
    requires MatchesStoredSlot(docs, ev) && !ev.queryFails
    requires docs[j].data.date == docs[k].data.date && OnlyRivals(docs, k, j, docs[k].data.date)
    requires docs[k].data.status == Active || docs[j].data.status == Active
    ensures var r := Validated(docs, ev);
            (r[k].data.status == Active || r[j].data.status == Active) &&
            OnlyRivals(r, k, j, r[k].data.date)
  {
    var r := Validated(docs, ev);
    if ev.bookingId == docs[k].id && docs[j].data.status != Active {
      LoneRivalKeepsSlot(docs, ev, k, j);
    } else if ev.bookingId == docs[j].id && docs[k].data.status != Active {
      LoneRivalKeepsSlot(docs, ev, j, k);
    }
  }

  /** Without query failures, runs never leave neither of the two only rivals active. */
  lemma {:induction false} AtLeastOneOfTwoSurvives(docs: seq<Doc>, evs: seq<Event>, k: nat, j: nat)
    requires UniqueIds(docs) && forall e | e in evs :: MatchesStoredSlot(docs, e) && !e.queryFails
    requires k < |docs| && j < |docs| && k != j
    requires docs[j].data.date == docs[k].data.date && OnlyRivals(docs, k, j, docs[k].data.date)
    requires docs[k].data.status == Active || docs[j].data.status == Active
    ensures RunAll(docs, evs)[k].data.status == Active || RunAll(docs, evs)[j].data.status == Active
    decreases |evs|
  {
    if evs != [] {
      StepKeepsOneOfTwo(docs, evs[0], k, j);
      StepKeepsStoreShape(docs, evs[0], evs[1..]);
      AtLeastOneOfTwoSurvives(Validated(docs, evs[0]), evs[1..], k, j);
    }
  }

  /**
   * Two overlapping active bookings that are the only active ones of their
   * date, both stored before the first run: once either has been validated,
   * and with no query failing, exactly one of them keeps the slot.
   */
  lemma ExactlyOneOfTwoSurvives(docs: seq<Doc>, evs: seq<Event>, i: nat, k: nat, j: nat)
    requires UniqueIds(docs) && forall e | e in evs :: MatchesStoredSlot(docs, e) && !e.queryFails
    requires k < |docs| && j < |docs| && k != j
    requires docs[k].data.status == Active && docs[j].data.status == Active
    requires docs[j].data.date == docs[k].data.date && OnlyRivals(docs, k, j, docs[k].data.date)
    requires Conflicts(docs[k].data, docs[j].data)
    requires i < |evs| && (evs[i].bookingId == docs[k].id || evs[i].bookingId == docs[j].id)
    ensures RunAll(docs, evs)[k].data.status == Active <==> RunAll(docs, evs)[j].data.status != Active
  {
    AtLeastOneOfTwoSurvives(docs, evs, k, j);
    if evs[i].bookingId == docs[k].id {
      AtMostOneOfTwoSurvives(docs, evs, i, k, j);
    } else {
      AtMostOneOfTwoSurvives(docs, evs, i, j, k);
    }
  }
}
