/**
 * The `Appointment` model: its type table, slot list, day-scoped selection of
 * stored rows, the validations run when a record is created, and saving a
 * record into the table.
 */
module Appointments {
  import opened Clock

  /** A row of the appointments table (`type` is a Dafny keyword, hence `kind`). */
  datatype Appointment = Appointment(startsAt: int, kind: string, patientName: string)

  /** The attributes that presence errors are filed under. */
  datatype Field = TypeField | PatientNameField

  /** The messages the validations add to a record's `errors`, in Rails' words. */
  datatype ErrorMsg =
    | CantBeBlank(field: Field)   // presence
    | IsUnrecognized              // type: inclusion
    | ConflictsWithExisting       // starts_at: "conflicts with an existing appointment"
    | BeforeNineAm                // starts_at: "is before 9 AM"
    | TooLateInTheDay             // starts_at: "is too late in the day for the type of appointment"
    | TooSoon                     // starts_at: "must be more than 2 hours from now"
    | NotOnHourOrHalfHour         // starts_at: "must be on the hour or half-hour"

  /** `APPOINTMENT_TYPE`: symbol key to the stored type string. */
  const AppointmentType: map<string, string> :=
    map["initial" := "initial", "standard" := "standard", "checkin" := "checking"]

  /** `APPOINTMENT_LENGTH`: symbol key to the length in seconds. */
  const AppointmentLengths: map<string, int> :=
    map["initial" := 90 * SecondsPerMinute, "standard" := 60 * SecondsPerMinute, "checkin" := 30 * SecondsPerMinute]

  /** Earliest start hour and the closing hour of the business day. */
  const OpeningHour: int := 9
  const ClosingHour: int := 17

  /** Minimum lead time between now and a start. */
  const LeadTime: int := 2 * SecondsPerHour

  /** The inclusion validation: the type string is one of `APPOINTMENT_TYPE.values`. */
  predicate Recognized(kind: string) {
    kind in AppointmentType.Values
  }

  /** `appointment_length`: `APPOINTMENT_LENGTH[type.to_sym] || 0`. */
  function AppointmentLength(kind: string): (r: int)
    ensures r >= 0 && r % HalfHour == 0
    ensures r > 0 <==> kind in AppointmentLengths
  {
    if kind in AppointmentLengths then AppointmentLengths[kind] else 0
  }

  /** The only end time the code uses: `starts_at + appointment_length`. */
  function EndsAt(a: Appointment): int {
    a.startsAt + AppointmentLength(a.kind)
  }

  /** `(lo..hi).to_a`. */
  function Range(lo: int, hi: int): (r: seq<int>)
    decreases hi - lo
    ensures |r| == if hi < lo then 0 else hi - lo + 1
    ensures forall s :: s in r <==> lo <= s <= hi
  {
    if hi < lo then [] else [lo] + Range(lo + 1, hi)
  }

  /** `(lo..hi).to_a` lists its integers in ascending order, one step apart. */
  lemma {:induction false} RangeAscending(lo: int, hi: int)
    ensures forall i :: 0 <= i < |Range(lo, hi)| ==> Range(lo, hi)[i] == lo + i
    decreases hi - lo
  {
    if lo <= hi {
      RangeAscending(lo + 1, hi);
    }
  }

  /** `time_slots`: from the start hour minus 9, one slot per half hour of length. */
  function TimeSlots(a: Appointment): (r: seq<int>)
    ensures |r| == AppointmentLength(a.kind) / HalfHour
    ensures forall s :: s in r <==> Hour(a.startsAt) - OpeningHour <= s < Hour(a.startsAt) - OpeningHour + |r|
  {
    var startingSlot := Hour(a.startsAt) - OpeningHour;
    var endingSlot := startingSlot + AppointmentLength(a.kind) / HalfHour - 1;
    Range(startingSlot, endingSlot)
  }

  /** `Appointment.schedule(date)`: the stored rows with `date <= starts_at < date.tomorrow`, in table order. */
  function Schedule(rows: seq<Appointment>, day: int): (r: seq<Appointment>)
    ensures |r| <= |rows|
    ensures forall a :: a in r <==> a in rows && InDay(a.startsAt, day)
  {
    if rows == [] then []
    else
      var last := rows[|rows| - 1];
      Schedule(rows[..|rows| - 1], day) + (if InDay(last.startsAt, day) then [last] else [])
  }

  /** `schedule` keeps every copy of a row of the day, and no copy of any other row. */
  lemma {:induction false} ScheduleCounts(rows: seq<Appointment>, day: int)
    ensures forall a :: multiset(Schedule(rows, day))[a] == if InDay(a.startsAt, day) then multiset(rows)[a] else 0
  {
    if rows != [] {
      ScheduleCounts(rows[..|rows| - 1], day);
      assert rows == rows[..|rows| - 1] + [rows[|rows| - 1]];
    }
  }

  /** `map(&:time_slots).flatten`. */
  function SlotsOf(apps: seq<Appointment>): seq<int> {
    if apps == [] then [] else TimeSlots(apps[0]) + SlotsOf(apps[1..])
  }

  /** `Appointment.scheduled_slots(date)`: every slot taken on that day. */
  function ScheduledSlots(rows: seq<Appointment>, day: int): seq<int> {
    SlotsOf(Schedule(rows, day))
  }

  /** The flattened list holds exactly the slots of the listed appointments. */
  lemma {:induction false} SlotsOfMembers(apps: seq<Appointment>)
    ensures forall s :: s in SlotsOf(apps) <==> exists a :: a in apps && s in TimeSlots(a)
  {
    if apps != [] {
      SlotsOfMembers(apps[1..]);
      assert forall a :: a in apps <==> a == apps[0] || a in apps[1..];
    }
  }

  /** A slot is taken on a day exactly when some row starting that day occupies it. */
  lemma {:induction false} ScheduledSlotsMembers(rows: seq<Appointment>, day: int)
    ensures forall s :: s in ScheduledSlots(rows, day) <==>
              exists b :: b in rows && InDay(b.startsAt, day) && s in TimeSlots(b)
  {
    SlotsOfMembers(Schedule(rows, day));
  }

  /** `(Appointment.scheduled_slots(starts_at.to_date) & time_slots).present?`. */
  predicate Conflicts(a: Appointment, rows: seq<Appointment>) {
    exists s :: s in ScheduledSlots(rows, Day(a.startsAt)) && s in TimeSlots(a)
  }

  /** `String#blank?`: empty or made only of whitespace (`[[:space:]]`). */
  predicate IsSpace(c: char) {
    ('\t' <= c <= '\r') || c == ' ' || c == '\U{0085}' || c == '\U{00A0}' || c == '\U{1680}'
    || ('\U{2000}' <= c <= '\U{200A}') || c == '\U{2028}' || c == '\U{2029}' || c == '\U{202F}'
    || c == '\U{205F}' || c == '\U{3000}'
  }

  predicate Blank(s: string) {
    s == [] || (IsSpace(s[0]) && Blank(s[1..]))
  }

  /** Blank means every character is whitespace (the empty string included). */
  lemma {:induction false} BlankIffAllSpace(s: string)
    ensures Blank(s) <==> forall i :: 0 <= i < |s| ==> IsSpace(s[i])
  {
    if s != [] {
      BlankIffAllSpace(s[1..]);
      assert forall i :: 0 < i < |s| ==> s[i] == s[1..][i - 1];
    }
  }

  /** `during_business_hours`, first branch. */
  predicate StartsBeforeOpening(a: Appointment) {
    Hour(a.startsAt) < OpeningHour
  }

  /** `during_business_hours`, second branch: the hour of the end time is 17 or later. */
  predicate EndsTooLate(a: Appointment) {
    Hour(EndsAt(a)) >= ClosingHour
  }

  /** `not_too_soon`: `starts_at < now + 2.hours`. */
  predicate TooSoonAfter(a: Appointment, now: int) {
    a.startsAt < now + LeadTime
  }

  /** `on_the_hour_or_half_hour`: only the minute is examined. */
  predicate OnHourOrHalfHour(a: Appointment) {
    Minute(a.startsAt) == 0 || Minute(a.startsAt) == 30
  }

  /** What `validates ... presence: true` adds (`starts_at` is never nil in this model). */
  function PresenceErrors(a: Appointment): seq<ErrorMsg> {
    (if Blank(a.kind) then [CantBeBlank(TypeField)] else [])
    + (if Blank(a.patientName) then [CantBeBlank(PatientNameField)] else [])
  }

  /** What `validates :type, inclusion:` adds. */
  function InclusionErrors(a: Appointment): seq<ErrorMsg> {
    if Recognized(a.kind) then [] else [IsUnrecognized]
  }

  function BusinessHoursErrors(a: Appointment): seq<ErrorMsg> {
    if StartsBeforeOpening(a) then [BeforeNineAm]
    else if EndsTooLate(a) then [TooLateInTheDay]
    else []
  }

  /** What `starts_at_is_ok` adds: overlap, business hours, lead time, alignment. */
  function StartsAtErrors(a: Appointment, rows: seq<Appointment>, now: int): seq<ErrorMsg> {
    (if Conflicts(a, rows) then [ConflictsWithExisting] else [])
    + BusinessHoursErrors(a)
    + (if TooSoonAfter(a, now) then [TooSoon] else [])
    + (if OnHourOrHalfHour(a) then [] else [NotOnHourOrHalfHour])
  }

  /** Every error a new record collects against the stored rows at time `now`. */
  function ValidationErrors(a: Appointment, rows: seq<Appointment>, now: int): seq<ErrorMsg> {
    PresenceErrors(a) + InclusionErrors(a) + StartsAtErrors(a, rows, now)
  }

  /** What every row that passed validation satisfies, whatever the clock says. */
  predicate Admissible(a: Appointment) {
    Recognized(a.kind) && Hour(a.startsAt) >= OpeningHour
  }

  /** The intervals `[starts_at, starts_at + length)` share at least one second. */
  predicate Overlap(a: Appointment, b: Appointment) {
    a.startsAt < EndsAt(a) && b.startsAt < EndsAt(b)
    && a.startsAt < EndsAt(b) && b.startsAt < EndsAt(a)
  }

  /** The table invariant: every row admissible, no two rows overlapping. */
  ghost predicate Consistent(rows: seq<Appointment>) {
    && (forall i :: 0 <= i < |rows| ==> Admissible(rows[i]))
    && (forall i, j :: 0 <= i < j < |rows| ==> !Overlap(rows[i], rows[j]))
  }

  /** The stored type strings are exactly initial, standard and checking. */
  lemma {:induction false} RecognizedTypes(kind: string)
    ensures Recognized(kind) <==> kind == "initial" || kind == "standard" || kind == "checking"
  {
    if kind == "checking" {
      assert AppointmentType["checkin"] == kind;
    }
    if kind == "initial" {
      assert AppointmentType["initial"] == kind;
    }
    if kind == "standard" {
      assert AppointmentType["standard"] == kind;
    }
  }

  /** A recognized type is 90 or 60 minutes long, or has no length at all ("checking"). */
  lemma {:induction false} RecognizedLengths(kind: string)
    requires Recognized(kind)
    ensures AppointmentLength(kind) in {0, 60 * SecondsPerMinute, 90 * SecondsPerMinute}
    ensures kind == "checking" ==> AppointmentLength(kind) == 0
  {
    RecognizedTypes(kind);
  }

  /** A validated appointment is admissible. */
  lemma {:induction false} AcceptedIsAdmissible(a: Appointment, rows: seq<Appointment>, now: int)
    requires ValidationErrors(a, rows, now) == []
    ensures Admissible(a) && !Conflicts(a, rows)
  {
    assert InclusionErrors(a) == [] && StartsAtErrors(a, rows, now) == [];
    assert BusinessHoursErrors(a) == [];
  }

  /** Two admissible appointments on the same day with disjoint slot lists do not overlap. */
  lemma {:induction false} SameDayDisjointSlots(a: Appointment, b: Appointment)
    requires Admissible(a) && Admissible(b) && Day(a.startsAt) == Day(b.startsAt)
    requires forall s :: s in TimeSlots(a) ==> s !in TimeSlots(b)
    ensures !Overlap(a, b)
  {
    RecognizedLengths(a.kind);
    RecognizedLengths(b.kind);
    var la, lb := AppointmentLength(a.kind), AppointmentLength(b.kind);
    if la > 0 && lb > 0 {
      var ha, hb := Hour(a.startsAt), Hour(b.startsAt);
      var na, nb := la / HalfHour, lb / HalfHour;
      assert na >= 2 && nb >= 2;
      // The later start hour is a slot of both unless the ranges are apart.
      var s := if ha <= hb then hb - OpeningHour else ha - OpeningHour;
      assert s in TimeSlots(a) ==> s !in TimeSlots(b);
      HourBounds(a.startsAt);
      HourBounds(b.startsAt);
      assert la == na * HalfHour && lb == nb * HalfHour;
      if hb >= ha + na {
        assert EndsAt(a) <= b.startsAt;
      } else {
        assert ha >= hb + nb;
        assert EndsAt(b) <= a.startsAt;
      }
    }
  }

  /** Admissible appointments on different days do not overlap: a day's bookings end by 01:00 of the next. */
  lemma {:induction false} DifferentDays(a: Appointment, b: Appointment)
    requires Admissible(a) && Admissible(b) && Day(a.startsAt) < Day(b.startsAt)
    ensures !Overlap(a, b)
  {
    RecognizedLengths(a.kind);
    HourBounds(a.startsAt);
    HourBounds(b.startsAt);
    assert DayStart(Day(a.startsAt)) + SecondsPerDay <= DayStart(Day(b.startsAt));
    assert EndsAt(a) <= b.startsAt;
  }

  /**
   * An appointment that passes validation does not overlap, in real time, any
   * admissible stored row: the half-hour slot test, though it ignores the
   * start minute, is conservative for the lengths a recognized type can have.
   */
  lemma {:induction false} AcceptedDoesNotOverlap(a: Appointment, rows: seq<Appointment>, now: int)
    requires forall b :: b in rows ==> Admissible(b)
    requires ValidationErrors(a, rows, now) == []
    ensures Admissible(a)
    ensures forall b :: b in rows ==> !Overlap(a, b)
  {
    AcceptedIsAdmissible(a, rows, now);
    forall b | b in rows
      ensures !Overlap(a, b)
    {
      var da, db := Day(a.startsAt), Day(b.startsAt);
      if da == db {
        InDayIff(b.startsAt, da);
        ScheduledSlotsMembers(rows, da);
        forall s | s in TimeSlots(a)
          ensures s !in TimeSlots(b)
        {
          assert s in TimeSlots(b) ==> s in ScheduledSlots(rows, da);
        }
        SameDayDisjointSlots(a, b);
      } else if da < db {
        DifferentDays(a, b);
      } else {
        DifferentDays(b, a);
      }
    }
  }

  /** Saving an accepted appointment keeps the table consistent. */
  lemma {:induction false} SavePreservesConsistency(a: Appointment, rows: seq<Appointment>, now: int)
    requires Consistent(rows)
    requires ValidationErrors(a, rows, now) == []
    ensures Consistent(rows + [a])
  {
    assert forall i :: 0 <= i < |rows| ==> rows[i] in rows;
    AcceptedDoesNotOverlap(a, rows, now);
    var rows' := rows + [a];
    forall i, j | 0 <= i < j < |rows'|
      ensures !Overlap(rows'[i], rows'[j])
    {
      if j == |rows| {
        assert !Overlap(a, rows[i]);
      }
    }
  }

  /**
   * The appointments table. Every row got there through `save`, so every row is
   * admissible and no two rows overlap.
   */
  class AppointmentStore {
    var rows: seq<Appointment>

    ghost predicate Valid()
      reads this
    {
      Consistent(rows)
    }

    constructor ()
      ensures rows == [] && Valid()
    {
      rows := [];
    }
  }

  /**
   * An unsaved `Appointment` record: its attributes and its `errors` collection.
   * Only `starts_at` is reassigned after construction (by the availability loop).
   */
  class AppointmentRecord {
    var startsAt: int
    const kind: string
    const patientName: string
    var errors: seq<ErrorMsg>

    constructor (startsAt: int, kind: string, patientName: string)
      ensures this.startsAt == startsAt && this.kind == kind && this.patientName == patientName
      ensures errors == []
    {
      this.startsAt := startsAt;
      this.kind := kind;
      this.patientName := patientName;
      errors := [];
    }

    /** The row this record would be saved as. */
    function Value(): Appointment
      reads this
    {
      Appointment(startsAt, kind, patientName)
    }

    method DoesNotOverlap(store: AppointmentStore)
      modifies this`errors
      ensures errors == old(errors) + (if Conflicts(Value(), store.rows) then [ConflictsWithExisting] else [])
    {
      var taken := ScheduledSlots(store.rows, Day(startsAt));
      var mine := TimeSlots(Value());
      if exists s :: s in taken && s in mine {
        errors := errors + [ConflictsWithExisting];
      }
    }

    method DuringBusinessHours()
      modifies this`errors
      ensures errors == old(errors) + BusinessHoursErrors(Value())
    {
      if Hour(startsAt) < OpeningHour {
        errors := errors + [BeforeNineAm];
      } else if Hour(startsAt + AppointmentLength(kind)) >= ClosingHour {
        errors := errors + [TooLateInTheDay];
      }
    }

    method NotTooSoon(now: int)
      modifies this`errors
      ensures errors == old(errors) + (if TooSoonAfter(Value(), now) then [TooSoon] else [])
    {
      if startsAt < now + LeadTime {
        errors := errors + [TooSoon];
      }
    }

    method OnTheHourOrHalfHour()
      modifies this`errors
      ensures errors == old(errors) + (if OnHourOrHalfHour(Value()) then [] else [NotOnHourOrHalfHour])
    {
      var minute := Minute(startsAt);
      if minute != 0 && minute != 30 {
        errors := errors + [NotOnHourOrHalfHour];
      }
    }

    /** `starts_at_is_ok`: the four rules, always all of them, in this order. */
    method StartsAtIsOk(store: AppointmentStore, now: int)
      modifies this`errors
      ensures errors == old(errors) + StartsAtErrors(Value(), store.rows, now)
    {
      DoesNotOverlap(store);
      DuringBusinessHours();
      NotTooSoon(now);
      OnTheHourOrHalfHour();
    }

    /** `valid?` on a new record: clear `errors`, run every validation (create context). */
    method IsValid(store: AppointmentStore, now: int) returns (ok: bool)
      modifies this`errors
      ensures errors == ValidationErrors(Value(), store.rows, now)
      ensures ok <==> errors == []
    {
      errors := [];
      if Blank(kind) {
        errors := errors + [CantBeBlank(TypeField)];
      }
      if Blank(patientName) {
        errors := errors + [CantBeBlank(PatientNameField)];
      }
      assert errors == PresenceErrors(Value());
      if kind !in AppointmentType.Values {
        errors := errors + [IsUnrecognized];
      }
      assert errors == PresenceErrors(Value()) + InclusionErrors(Value());
      StartsAtIsOk(store, now);
      ok := errors == [];
    }

    /** `save`: validate, then insert the row only if no error was added. */
    method Save(store: AppointmentStore, now: int) returns (saved: bool)
      modifies this`errors, store`rows
      ensures errors == ValidationErrors(Value(), old(store.rows), now)
      ensures saved <==> errors == []
      ensures store.rows == if saved then old(store.rows) + [Value()] else old(store.rows)
      ensures old(store.Valid()) ==> store.Valid()
    {
      saved := IsValid(store, now);
      if saved {
        if store.Valid() {
          SavePreservesConsistency(Value(), store.rows, now);
        }
        store.rows := store.rows + [Value()];
      }
    }
  }
}
