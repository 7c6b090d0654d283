/**
 * `AppointmentsController`: the availability enumeration (`index`), booking
 * (`create`) and the day's schedule (`schedule`). Dates arrive already parsed;
 * an unparseable date for `schedule` is `None`.
 */
module AppointmentsController {
  import opened Wrappers
  import opened Clock
  import opened Appointments

  /** `(9..16.5).step(0.5)` has sixteen half-hour marks. */
  const CandidateCount: int := 16

  /** The name every provisional appointment carries in `index`. */
  const PlaceholderName: string := "Valuable Customer"

  const InvalidDate: string := "Invalid date"

  /** `date + start_time.hours` for the k-th mark, 09:00 + k half hours. */
  function Candidate(day: int, k: int): int {
    DayStart(day) + OpeningHour * SecondsPerHour + k * HalfHour
  }

  /** The copy `index` keeps of its reused record for the k-th mark. */
  function Proposal(day: int, kind: string, k: int): Appointment {
    Appointment(Candidate(day, k), kind, PlaceholderName)
  }

  /** `valid?` on a new record: no validation added an error. */
  predicate Bookable(a: Appointment, rows: seq<Appointment>, now: int) {
    ValidationErrors(a, rows, now) == []
  }

  /** The proposals of the first `n` marks whose index `keep` accepts, in mark order. */
  function Kept(day: int, kind: string, keep: int -> bool, n: nat): seq<Appointment> {
    if n == 0 then []
    else Kept(day, kind, keep, n - 1) + (if keep(n - 1) then [Proposal(day, kind, n - 1)] else [])
  }

  /** The verdict of `valid?` on the proposal of each mark. */
  function BookableMark(rows: seq<Appointment>, day: int, kind: string, now: int): int -> bool {
    k => Bookable(Proposal(day, kind, k), rows, now)
  }

  /** The answer of `index` for a day and a type string. */
  function Available(rows: seq<Appointment>, day: int, kind: string, now: int): seq<Appointment> {
    Kept(day, kind, BookableMark(rows, day, kind, now), CandidateCount)
  }

  /** One turn of the `index` loop: move the record's start to the k-th mark and run `valid?`. */
  method TryMark(appointment: AppointmentRecord, store: AppointmentStore, day: int, k: int, now: int) returns (ok: bool)
    requires appointment.patientName == PlaceholderName
    modifies appointment
    ensures appointment.startsAt == Candidate(day, k)
    ensures ok == BookableMark(store.rows, day, appointment.kind, now)(k)
  {
    appointment.startsAt := Candidate(day, k);
    ok := appointment.IsValid(store, now);
  }

  /**
   * `index`: one record with the requested type and the placeholder name, its
   * start moved to each mark in turn, a copy kept whenever it is valid. The
   * table is only read.
   */
  method Index(store: AppointmentStore, day: int, kind: string, now: int) returns (available: seq<Appointment>)
    ensures available == Available(store.rows, day, kind, now)
  {
    ghost var rows := store.rows;
    available := [];
    var appointment := new AppointmentRecord(Candidate(day, 0), kind, PlaceholderName);
    var k := 0;
    while k < CandidateCount
      invariant 0 <= k <= CandidateCount
      invariant store.rows == rows
      invariant available == Kept(day, kind, BookableMark(rows, day, kind, now), k)
    {
      var ok := TryMark(appointment, store, day, k, now);
      assert appointment.Value() == Proposal(day, kind, k);
      if ok {
        available := available + [appointment.Value()];
      }
      k := k + 1;
    }
  }

  /** `create`: build a record from the parameters and save it; report the errors otherwise. */
  method Create(store: AppointmentStore, startsAt: int, kind: string, patientName: string, now: int)
    returns (r: Result<Appointment, seq<ErrorMsg>>)
    modifies store
    ensures var a := Appointment(startsAt, kind, patientName);
            var errs := ValidationErrors(a, old(store.rows), now);
            && (r.Success? <==> errs == [])
            && (r.Success? ==> r.value == a && store.rows == old(store.rows) + [a])
            && (r.Failure? ==> r.error == errs && store.rows == old(store.rows))
    ensures old(store.Valid()) ==> store.Valid()
  {
    var appointment := new AppointmentRecord(startsAt, kind, patientName);
    var saved := appointment.Save(store, now);
    if saved {
      r := Success(appointment.Value());
    } else {
      r := Failure(appointment.errors);
    }
  }

  /** `where(starts_at: lo..hi)`: rows whose start lies in the closed range, in table order. */
  function RowsBetween(rows: seq<Appointment>, lo: int, hi: int): (r: seq<Appointment>)
    ensures forall a :: a in r <==> a in rows && lo <= a.startsAt <= hi
  {
    if rows == [] then []
    else
      var last := rows[|rows| - 1];
      RowsBetween(rows[..|rows| - 1], lo, hi) + (if lo <= last.startsAt <= hi then [last] else [])
  }

  /** The range filter keeps every copy of a row in range, and no copy of any other row. */
  lemma {:induction false} RowsBetweenCounts(rows: seq<Appointment>, lo: int, hi: int)
    ensures forall a :: multiset(RowsBetween(rows, lo, hi))[a] == if lo <= a.startsAt <= hi then multiset(rows)[a] else 0
  {
    if rows != [] {
      RowsBetweenCounts(rows[..|rows| - 1], lo, hi);
      assert rows == rows[..|rows| - 1] + [rows[|rows| - 1]];
    }
  }

  /** `beginning_of_day..end_of_day` selects exactly what `Appointment.schedule(date)` selects. */
  lemma {:induction false} DayRangeIsSchedule(rows: seq<Appointment>, d: int)
    ensures RowsBetween(rows, DayStart(d), DayEnd(d)) == Schedule(rows, d)
  {
    if rows != [] {
      DayRangeIsSchedule(rows[..|rows| - 1], d);
    }
  }

  /** `schedule`: the day's rows for a parsed date, the single error "Invalid date" otherwise. */
  function GetSchedule(store: AppointmentStore, date: Option<int>): (r: Result<seq<Appointment>, seq<string>>)
    reads store
    ensures date.None? ==> r == Failure([InvalidDate])
    ensures date.Some? ==> r == Success(Schedule(store.rows, date.value))
  {
    match date
    case None => Failure([InvalidDate])
    case Some(d) =>
      DayRangeIsSchedule(store.rows, d);
      Success(RowsBetween(store.rows, DayStart(d), DayEnd(d)))
  }

  /**
   * A row appended by `create` is listed last in the schedule of its own day,
   * and the schedule of every other day is unchanged.
   */
  lemma {:induction false} ScheduleAfterCreate(rows: seq<Appointment>, a: Appointment, d: int)
    ensures Schedule(rows + [a], d) == Schedule(rows, d) + (if Day(a.startsAt) == d then [a] else [])
  {
    assert (rows + [a])[..|rows|] == rows;
    InDayIff(a.startsAt, d);
  }

  /** Exactly the proposals of the accepted marks below `n` are kept. */
  lemma {:induction false} KeptMembers(day: int, kind: string, keep: int -> bool, n: nat)
    ensures forall a :: a in Kept(day, kind, keep, n) <==>
              exists k :: 0 <= k < n && keep(k) && a == Proposal(day, kind, k)
  {
    if n > 0 {
      KeptMembers(day, kind, keep, n - 1);
    }
  }

  /** The kept proposals are at most `n`, strictly ascending, and all before the n-th mark. */
  lemma {:induction false} KeptAscending(day: int, kind: string, keep: int -> bool, n: nat)
    ensures var r := Kept(day, kind, keep, n);
            && |r| <= n
            && (forall i :: 0 <= i < |r| ==> r[i].startsAt < Candidate(day, n))
            && (forall i, j :: 0 <= i < j < |r| ==> r[i].startsAt < r[j].startsAt)
  {
    if n > 0 {
      KeptAscending(day, kind, keep, n - 1);
    }
  }

  /** If exactly the marks below `m` are accepted, min(n, m) of the first `n` are kept. */
  lemma {:induction false} KeptCount(day: int, kind: string, keep: int -> bool, n: nat, m: nat)
    requires forall k :: 0 <= k < n ==> (keep(k) <==> k < m)
    ensures |Kept(day, kind, keep, n)| == if n <= m then n else m
  {
    if n > 0 {
      KeptCount(day, kind, keep, n - 1, m);
    }
  }

  /**
   * What `index` answers: at most sixteen proposals, strictly ascending by start
   * (so without duplicates), each with the requested type, and a mark's
   * proposal is among them exactly when it passes every validation.
   */
  lemma {:induction false} AvailableIsFilteredMarks(rows: seq<Appointment>, day: int, kind: string, now: int)
    ensures var r := Available(rows, day, kind, now);
            && |r| <= CandidateCount
            && (forall i, j :: 0 <= i < j < |r| ==> r[i].startsAt < r[j].startsAt)
            && (forall a :: a in r ==> exists k :: 0 <= k < CandidateCount && a == Proposal(day, kind, k))
            && (forall a :: a in r ==> a.kind == kind && a.patientName == PlaceholderName)
            && (forall k :: 0 <= k < CandidateCount ==>
                  (Proposal(day, kind, k) in r <==> Bookable(Proposal(day, kind, k), rows, now)))
  {
    KeptMembers(day, kind, BookableMark(rows, day, kind, now), CandidateCount);
    KeptAscending(day, kind, BookableMark(rows, day, kind, now), CandidateCount);
  }

  /** Nothing offered starts earlier than two hours from now. */
  lemma {:induction false} AvailableRespectsLeadTime(rows: seq<Appointment>, day: int, kind: string, now: int)
    ensures forall a :: a in Available(rows, day, kind, now) ==> a.startsAt >= now + LeadTime
  {
    KeptMembers(day, kind, BookableMark(rows, day, kind, now), CandidateCount);
    forall a | a in Available(rows, day, kind, now)
      ensures a.startsAt >= now + LeadTime
    {
      assert Bookable(a, rows, now);
      assert StartsAtErrors(a, rows, now) == [];
    }
  }

  /** An unrecognized type string, "checkin" among them, is never available. */
  lemma {:induction false} UnrecognizedTypeHasNoAvailability(rows: seq<Appointment>, day: int, kind: string, now: int)
    requires !Recognized(kind)
    ensures Available(rows, day, kind, now) == []
  {
    forall k | 0 <= k < CandidateCount
      ensures !Bookable(Proposal(day, kind, k), rows, now)
    {
      assert InclusionErrors(Proposal(day, kind, k)) == [IsUnrecognized];
    }
    KeptCount(day, kind, BookableMark(rows, day, kind, now), CandidateCount, 0);
  }

  /** The clock reading of the instant j half hours after 09:00. */
  lemma {:induction false} MarkClock(day: int, j: int)
    requires 0 <= j < 30
    ensures var t := DayStart(day) + OpeningHour * SecondsPerHour + j * HalfHour;
            Day(t) == day && Hour(t) == OpeningHour + j / 2 && Minute(t) == (j % 2) * 30
  {
    var s := OpeningHour * SecondsPerHour + j * HalfHour;
    ClockOf(day, s);
    DivModUnique(s, SecondsPerHour, OpeningHour + j / 2, (j % 2) * HalfHour);
  }

  /** On an empty table, before the lead time bites, a mark is bookable iff the type's end hour is before 17. */
  lemma {:induction false} EmptyDayMark(day: int, kind: string, now: int, k: int)
    requires 0 <= k < CandidateCount && Recognized(kind)
    requires now + LeadTime <= Candidate(day, 0)
    ensures Bookable(Proposal(day, kind, k), [], now) <==> k + AppointmentLength(kind) / HalfHour < CandidateCount
  {
    var p := Proposal(day, kind, k);
    RecognizedTypes(kind);
    RecognizedLengths(kind);
    var n := AppointmentLength(kind) / HalfHour;
    assert n <= 3;
    assert !IsSpace(kind[0]) && !IsSpace(PlaceholderName[0]);
    assert PresenceErrors(p) == [] && InclusionErrors(p) == [];
    assert !Conflicts(p, []);
    MarkClock(day, k);
    MarkClock(day, k + n);
    assert EndsAt(p) == DayStart(day) + OpeningHour * SecondsPerHour + (k + n) * HalfHour;
  }

  /**
   * On an empty table, with the whole day beyond the lead time, `index`
   * offers 13 initial, 14 standard, 16 "checking" and no "checkin" slots.
   */
  lemma {:induction false} EmptyDayCounts(day: int, now: int)
    requires now + LeadTime <= Candidate(day, 0)
    ensures |Available([], day, "initial", now)| == 13
    ensures |Available([], day, "standard", now)| == 14
    ensures |Available([], day, "checking", now)| == 16
    ensures Available([], day, "checkin", now) == []
  {
    RecognizedTypes("initial");
    RecognizedTypes("standard");
    RecognizedTypes("checking");
    RecognizedTypes("checkin");
    forall k | 0 <= k < CandidateCount
      ensures Bookable(Proposal(day, "initial", k), [], now) <==> k < 13
      ensures Bookable(Proposal(day, "standard", k), [], now) <==> k < 14
      ensures Bookable(Proposal(day, "checking", k), [], now) <==> k < 16
    {
      EmptyDayMark(day, "initial", now, k);
      EmptyDayMark(day, "standard", now, k);
      EmptyDayMark(day, "checking", now, k);
    }
    KeptCount(day, "initial", BookableMark([], day, "initial", now), CandidateCount, 13);
    KeptCount(day, "standard", BookableMark([], day, "standard", now), CandidateCount, 14);
    KeptCount(day, "checking", BookableMark([], day, "checking", now), CandidateCount, 16);
    UnrecognizedTypeHasNoAvailability([], day, "checkin", now);
  }
}
