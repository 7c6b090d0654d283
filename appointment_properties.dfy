/**
 * Properties of the `Appointment` validations: what each rule adds and when,
 * the order of the messages, and concrete cases where the code answers
 * differently from what its own tests expect.
 */
module AppointmentProperties {
  import opened Clock
  import opened Appointments

  /** Position of a message in the order the validations run. */
  function Rank(e: ErrorMsg): int {
    match e
    case CantBeBlank(TypeField) => 0
    case CantBeBlank(PatientNameField) => 1
    case IsUnrecognized => 2
    case ConflictsWithExisting => 3
    case BeforeNineAm => 4
    case TooLateInTheDay => 4
    case TooSoon => 5
    case NotOnHourOrHalfHour => 6
  }

  /** Ranks strictly increase along `xs` and all lie in [lo, hi). */
  predicate RankedBetween(xs: seq<ErrorMsg>, lo: int, hi: int)
    decreases |xs|
  {
    xs == [] || (lo <= Rank(xs[0]) < hi && RankedBetween(xs[1..], Rank(xs[0]) + 1, hi))
  }

  /** A ranked list stays ranked under a lower bound that is smaller still. */
  lemma {:induction false} RankedWiden(xs: seq<ErrorMsg>, lo: int, lo': int, hi: int)
    requires lo' <= lo && RankedBetween(xs, lo, hi)
    ensures RankedBetween(xs, lo', hi)
  {
  }

  lemma {:induction false} JoinRanked(xs: seq<ErrorMsg>, ys: seq<ErrorMsg>, lo: int, mid: int, hi: int)
    requires lo <= mid <= hi
    requires RankedBetween(xs, lo, mid) && RankedBetween(ys, mid, hi)
    ensures RankedBetween(xs + ys, lo, hi)
    decreases |xs|
  {
    if xs == [] {
      assert xs + ys == ys;
      RankedWiden(ys, mid, lo, hi);
    } else {
      JoinRanked(xs[1..], ys, Rank(xs[0]) + 1, mid, hi);
      assert (xs + ys)[0] == xs[0] && (xs + ys)[1..] == xs[1..] + ys;
    }
  }

  /** In a ranked list every later message has a strictly larger rank, and none is below `lo`. */
  lemma {:induction false} RankedAscending(xs: seq<ErrorMsg>, lo: int, hi: int)
    requires RankedBetween(xs, lo, hi)
    ensures forall i :: 0 <= i < |xs| ==> lo <= Rank(xs[i])
    ensures forall i, j :: 0 <= i < j < |xs| ==> Rank(xs[i]) < Rank(xs[j])
    decreases |xs|
  {
    if xs != [] {
      RankedAscending(xs[1..], Rank(xs[0]) + 1, hi);
      assert forall i :: 0 < i < |xs| ==> xs[i] == xs[1..][i - 1];
    }
  }

  /** A message when the flag is set, nothing otherwise. */
  function When(flag: bool, e: ErrorMsg): seq<ErrorMsg> {
    if flag then [e] else []
  }

  /** The validation errors, assembled from the outcome of each test alone. */
  function Assembled(blankType: bool, blankName: bool, unrecognized: bool, conflict: bool,
                     early: bool, late: bool, soon: bool, misaligned: bool): seq<ErrorMsg> {
    When(blankType, CantBeBlank(TypeField)) + When(blankName, CantBeBlank(PatientNameField))
    + When(unrecognized, IsUnrecognized)
    + (When(conflict, ConflictsWithExisting)
       + (if early then [BeforeNineAm] else When(late, TooLateInTheDay))
       + When(soon, TooSoon)
       + When(misaligned, NotOnHourOrHalfHour))
  }

  lemma {:induction false} WhenRanked(flag: bool, e: ErrorMsg)
    ensures RankedBetween(When(flag, e), Rank(e), Rank(e) + 1)
  {
  }

  /** The presence and inclusion messages come in rank order, within ranks 0 to 2. */
  lemma {:induction false} AttributeErrorsRanked(blankType: bool, blankName: bool, unrecognized: bool)
    ensures RankedBetween(When(blankType, CantBeBlank(TypeField)) + When(blankName, CantBeBlank(PatientNameField))
                          + When(unrecognized, IsUnrecognized), 0, 3)
  {
    WhenRanked(blankType, CantBeBlank(TypeField));
    WhenRanked(blankName, CantBeBlank(PatientNameField));
    WhenRanked(unrecognized, IsUnrecognized);
    JoinRanked(When(blankType, CantBeBlank(TypeField)), When(blankName, CantBeBlank(PatientNameField)), 0, 1, 2);
    JoinRanked(When(blankType, CantBeBlank(TypeField)) + When(blankName, CantBeBlank(PatientNameField)),
               When(unrecognized, IsUnrecognized), 0, 2, 3);
  }

  /** The start-time messages come in rank order, within ranks 3 to 6. */
  lemma {:induction false} StartTimeErrorsRanked(conflict: bool, early: bool, late: bool, soon: bool, misaligned: bool)
    ensures var h := if early then [BeforeNineAm] else When(late, TooLateInTheDay);
            RankedBetween(When(conflict, ConflictsWithExisting) + h + When(soon, TooSoon)
                          + When(misaligned, NotOnHourOrHalfHour), 3, 7)
  {
    var o, h := When(conflict, ConflictsWithExisting), if early then [BeforeNineAm] else When(late, TooLateInTheDay);
    var l, m := When(soon, TooSoon), When(misaligned, NotOnHourOrHalfHour);
    WhenRanked(conflict, ConflictsWithExisting);
    WhenRanked(late, TooLateInTheDay);
    assert RankedBetween(h, 4, 5);
    WhenRanked(soon, TooSoon);
    WhenRanked(misaligned, NotOnHourOrHalfHour);
    JoinRanked(o, h, 3, 4, 5);
    JoinRanked(o + h, l, 3, 5, 6);
    JoinRanked(o + h + l, m, 3, 6, 7);
  }

  /** Whatever the tests answer, the assembled messages come in rank order. */
  lemma {:induction false} AssembledInRankOrder(blankType: bool, blankName: bool, unrecognized: bool, conflict: bool,
                                                early: bool, late: bool, soon: bool, misaligned: bool)
    ensures RankedBetween(Assembled(blankType, blankName, unrecognized, conflict, early, late, soon, misaligned), 0, 7)
  {
    AttributeErrorsRanked(blankType, blankName, unrecognized);
    StartTimeErrorsRanked(conflict, early, late, soon, misaligned);
    JoinRanked(When(blankType, CantBeBlank(TypeField)) + When(blankName, CantBeBlank(PatientNameField))
               + When(unrecognized, IsUnrecognized),
               When(conflict, ConflictsWithExisting) + (if early then [BeforeNineAm] else When(late, TooLateInTheDay))
               + When(soon, TooSoon) + When(misaligned, NotOnHourOrHalfHour), 0, 3, 7);
  }

  /** What the presence and inclusion tests contribute. */
  lemma {:induction false} AttributeMembers(blankType: bool, blankName: bool, unrecognized: bool)
    ensures var errs := When(blankType, CantBeBlank(TypeField)) + When(blankName, CantBeBlank(PatientNameField))
                        + When(unrecognized, IsUnrecognized);
            && (forall e :: e in errs ==> Rank(e) < 3)
            && (CantBeBlank(TypeField) in errs <==> blankType)
            && (CantBeBlank(PatientNameField) in errs <==> blankName)
            && (IsUnrecognized in errs <==> unrecognized)
            && (errs == [] <==> !blankType && !blankName && !unrecognized)
  {
  }

  /** What the start-time tests contribute. */
  lemma {:induction false} StartTimeMembers(conflict: bool, early: bool, late: bool, soon: bool, misaligned: bool)
    ensures var errs := When(conflict, ConflictsWithExisting) + (if early then [BeforeNineAm] else When(late, TooLateInTheDay))
                        + When(soon, TooSoon) + When(misaligned, NotOnHourOrHalfHour);
            && (forall e :: e in errs ==> Rank(e) >= 3)
            && (ConflictsWithExisting in errs <==> conflict)
            && (BeforeNineAm in errs <==> early)
            && (TooLateInTheDay in errs <==> !early && late)
            && (TooSoon in errs <==> soon)
            && (NotOnHourOrHalfHour in errs <==> misaligned)
            && (errs == [] <==> !conflict && !early && !late && !soon && !misaligned)
  {
  }

  /** Which message each test contributes, and when nothing is contributed at all. */
  lemma {:induction false} AssembledMembers(blankType: bool, blankName: bool, unrecognized: bool, conflict: bool,
                                            early: bool, late: bool, soon: bool, misaligned: bool)
    ensures var errs := Assembled(blankType, blankName, unrecognized, conflict, early, late, soon, misaligned);
            && (CantBeBlank(TypeField) in errs <==> blankType)
            && (CantBeBlank(PatientNameField) in errs <==> blankName)
            && (IsUnrecognized in errs <==> unrecognized)
            && (ConflictsWithExisting in errs <==> conflict)
            && (BeforeNineAm in errs <==> early)
            && (TooLateInTheDay in errs <==> !early && late)
            && (TooSoon in errs <==> soon)
            && (NotOnHourOrHalfHour in errs <==> misaligned)
            && (errs == [] <==> !blankType && !blankName && !unrecognized && !conflict && !early && !late && !soon && !misaligned)
  {
    AttributeMembers(blankType, blankName, unrecognized);
    StartTimeMembers(conflict, early, late, soon, misaligned);
  }

  /** `ValidationErrors` is the assembly of the individual tests. */
  lemma {:induction false} ValidationErrorsAssembled(a: Appointment, rows: seq<Appointment>, now: int)
    ensures ValidationErrors(a, rows, now)
         == Assembled(Blank(a.kind), Blank(a.patientName), !Recognized(a.kind), Conflicts(a, rows),
                      StartsBeforeOpening(a), EndsTooLate(a), TooSoonAfter(a, now), !OnHourOrHalfHour(a))
  {
  }

  /** Each message is present exactly when its test fails; no message at all means every test passed. */
  lemma {:induction false} RuleOutcomes(a: Appointment, rows: seq<Appointment>, now: int)
    ensures var errs := ValidationErrors(a, rows, now);
            && (CantBeBlank(TypeField) in errs <==> Blank(a.kind))
            && (CantBeBlank(PatientNameField) in errs <==> Blank(a.patientName))
            && (IsUnrecognized in errs <==> !Recognized(a.kind))
            && (ConflictsWithExisting in errs <==> Conflicts(a, rows))
            && (BeforeNineAm in errs <==> StartsBeforeOpening(a))
            && (TooLateInTheDay in errs <==> !StartsBeforeOpening(a) && EndsTooLate(a))
            && (TooSoon in errs <==> TooSoonAfter(a, now))
            && (NotOnHourOrHalfHour in errs <==> !OnHourOrHalfHour(a))
            && (errs == [] <==> !Blank(a.kind) && !Blank(a.patientName) && Recognized(a.kind) && !Conflicts(a, rows)
                                && !StartsBeforeOpening(a) && !EndsTooLate(a) && !TooSoonAfter(a, now) && OnHourOrHalfHour(a))
  {
    ValidationErrorsAssembled(a, rows, now);
    AssembledMembers(Blank(a.kind), Blank(a.patientName), !Recognized(a.kind), Conflicts(a, rows),
                     StartsBeforeOpening(a), EndsTooLate(a), TooSoonAfter(a, now), !OnHourOrHalfHour(a));
  }

  /**
   * Messages come in validation order: presence, inclusion, overlap, business
   * hours, lead time, alignment. Each rule adds at most one, and the two
   * business-hours messages never come together.
   */
  lemma {:induction false} ErrorsInRuleOrder(a: Appointment, rows: seq<Appointment>, now: int)
    ensures var errs := ValidationErrors(a, rows, now);
            forall i, j :: 0 <= i < j < |errs| ==> Rank(errs[i]) < Rank(errs[j])
  {
    ValidationErrorsAssembled(a, rows, now);
    AssembledInRankOrder(Blank(a.kind), Blank(a.patientName), !Recognized(a.kind), Conflicts(a, rows),
                         StartsBeforeOpening(a), EndsTooLate(a), TooSoonAfter(a, now), !OnHourOrHalfHour(a));
    RankedAscending(ValidationErrors(a, rows, now), 0, 7);
  }

  /** An unrecognized type, and only that, adds "is unrecognized". */
  lemma {:induction false} InclusionRule(a: Appointment, rows: seq<Appointment>, now: int)
    ensures IsUnrecognized in ValidationErrors(a, rows, now) <==> !Recognized(a.kind)
  {
    RuleOutcomes(a, rows, now);
  }

  /**
   * The conflict message appears exactly when a stored row starting on the
   * same calendar day shares a slot with the candidate.
   */
  lemma {:induction false} ConflictRule(a: Appointment, rows: seq<Appointment>, now: int)
    ensures ConflictsWithExisting in ValidationErrors(a, rows, now) <==>
            exists b :: b in rows && Day(b.startsAt) == Day(a.startsAt) && Shared(a, b)
  {
    RuleOutcomes(a, rows, now);
    ConflictWitness(a, rows);
  }

  /** `Conflicts` holds exactly when a row of the same day shares a slot with `a`. */
  lemma {:induction false} ConflictWitness(a: Appointment, rows: seq<Appointment>)
    ensures Conflicts(a, rows) <==> exists b :: b in rows && Day(b.startsAt) == Day(a.startsAt) && Shared(a, b)
  {
    var d := Day(a.startsAt);
    ScheduledSlotsMembers(rows, d);
    if Conflicts(a, rows) {
      var s :| s in ScheduledSlots(rows, d) && s in TimeSlots(a);
      var b :| b in rows && InDay(b.startsAt, d) && s in TimeSlots(b);
      InDayIff(b.startsAt, d);
      assert Shared(a, b);
    }
    if exists b :: b in rows && Day(b.startsAt) == d && Shared(a, b) {
      var b :| b in rows && Day(b.startsAt) == d && Shared(a, b);
      var s :| s in TimeSlots(a) && s in TimeSlots(b);
      InDayIff(b.startsAt, d);
      assert s in ScheduledSlots(rows, d);
    }
  }

  /** The two appointments' slot lists have an element in common. */
  predicate Shared(a: Appointment, b: Appointment) {
    exists s :: s in TimeSlots(a) && s in TimeSlots(b)
  }

  /** Before 9 AM only "is before 9 AM" is added; the end time is not examined. */
  lemma {:induction false} BeforeOpeningRule(a: Appointment, rows: seq<Appointment>, now: int)
    ensures BeforeNineAm in ValidationErrors(a, rows, now) <==> Hour(a.startsAt) < OpeningHour
    ensures Hour(a.startsAt) < OpeningHour ==> TooLateInTheDay !in ValidationErrors(a, rows, now)
  {
    RuleOutcomes(a, rows, now);
  }

  /** From 9 AM on, "too late" is added exactly when the end time's hour is 17 or more. */
  lemma {:induction false} ClosingRule(a: Appointment, rows: seq<Appointment>, now: int)
    requires Hour(a.startsAt) >= OpeningHour
    ensures TooLateInTheDay in ValidationErrors(a, rows, now) <==> Hour(a.startsAt + AppointmentLength(a.kind)) >= ClosingHour
  {
    RuleOutcomes(a, rows, now);
  }

  /** The lead-time message appears exactly when the start is earlier than now + 2 hours, whatever else fails. */
  lemma {:induction false} LeadTimeRule(a: Appointment, rows: seq<Appointment>, now: int)
    ensures TooSoon in ValidationErrors(a, rows, now) <==> a.startsAt < now + 2 * SecondsPerHour
  {
    RuleOutcomes(a, rows, now);
  }

  /** The alignment message appears exactly when the minute is neither 0 nor 30. */
  lemma {:induction false} AlignmentRule(a: Appointment, rows: seq<Appointment>, now: int)
    ensures NotOnHourOrHalfHour in ValidationErrors(a, rows, now) <==> Minute(a.startsAt) != 0 && Minute(a.startsAt) != 30
  {
    RuleOutcomes(a, rows, now);
  }

  /** A record is valid exactly when every rule is satisfied. */
  lemma {:induction false} ValidIffAllRulesPass(a: Appointment, rows: seq<Appointment>, now: int)
    ensures ValidationErrors(a, rows, now) == [] <==>
            && !Blank(a.kind) && !Blank(a.patientName)
            && (a.kind == "initial" || a.kind == "standard" || a.kind == "checking")
            && !Conflicts(a, rows)
            && OpeningHour <= Hour(a.startsAt)
            && Hour(a.startsAt + AppointmentLength(a.kind)) < ClosingHour
            && now + LeadTime <= a.startsAt
            && (Minute(a.startsAt) == 0 || Minute(a.startsAt) == 30)
  {
    ValidIffClockRulesPass(a, rows, now);
    RecognizedTypes(a.kind);
  }

  /** The same, with the type test left as inclusion in the stored values. */
  lemma {:induction false} ValidIffClockRulesPass(a: Appointment, rows: seq<Appointment>, now: int)
    ensures ValidationErrors(a, rows, now) == [] <==>
            && !Blank(a.kind) && !Blank(a.patientName) && Recognized(a.kind) && !Conflicts(a, rows)
            && OpeningHour <= Hour(a.startsAt)
            && Hour(a.startsAt + AppointmentLength(a.kind)) < ClosingHour
            && now + LeadTime <= a.startsAt
            && (Minute(a.startsAt) == 0 || Minute(a.startsAt) == 30)
  {
    RuleOutcomes(a, rows, now);
  }

  /** Lengths by type key: 90, 60 and 30 minutes, 0 for any other string. */
  lemma {:induction false} LengthByType(a: Appointment)
    ensures a.kind == "initial" ==> EndsAt(a) - a.startsAt == 90 * SecondsPerMinute && |TimeSlots(a)| == 3
    ensures a.kind == "standard" ==> EndsAt(a) - a.startsAt == 60 * SecondsPerMinute && |TimeSlots(a)| == 2
    ensures a.kind == "checkin" ==> EndsAt(a) - a.startsAt == 30 * SecondsPerMinute && |TimeSlots(a)| == 1
    ensures a.kind !in {"initial", "standard", "checkin"} ==> EndsAt(a) == a.startsAt && TimeSlots(a) == []
  {
  }

  /** The slot list covers the length exactly: lengths are whole half hours. */
  lemma {:induction false} SlotsCoverLength(a: Appointment)
    ensures |TimeSlots(a)| * HalfHour == EndsAt(a) - a.startsAt
  {
  }

  /** "checkin" has a length but is rejected; "checking" is accepted but has no length and no slots. */
  lemma {:induction false} CheckinTypo(t: int, name: string)
    ensures !Recognized("checkin") && AppointmentLength("checkin") == 30 * SecondsPerMinute
    ensures Recognized("checking") && AppointmentLength("checking") == 0
    ensures TimeSlots(Appointment(t, "checking", name)) == []
  {
    RecognizedTypes("checkin");
    RecognizedTypes("checking");
  }

  /** The slot list depends only on the start hour and the type, never on the minute or second. */
  lemma {:induction false} SlotsIgnoreMinute(a: Appointment, b: Appointment)
    requires Hour(a.startsAt) == Hour(b.startsAt) && a.kind == b.kind
    ensures TimeSlots(a) == TimeSlots(b)
  {
  }

  /** A 09:30 start is given the same slots as a 09:00 start: the minute is ignored. */
  lemma {:induction false} HalfPastSharesHourSlots(day: int, kind: string, name: string)
    ensures var onHour := Appointment(DayStart(day) + 9 * SecondsPerHour, kind, name);
            var halfPast := Appointment(DayStart(day) + 9 * SecondsPerHour + HalfHour, kind, name);
            TimeSlots(onHour) == TimeSlots(halfPast)
  {
    ClockOf(day, 9 * SecondsPerHour);
    ClockOf(day, 9 * SecondsPerHour + HalfHour);
  }

  lemma {:induction false} NamesAreNotBlank()
    ensures !Blank("initial") && !Blank("standard") && !Blank("Alice") && !Blank("Bob")
  {
  }

  /** Two rows of the same day that share a slot conflict, whatever their times. */
  lemma {:induction false} SharedSlotConflicts(a: Appointment, b: Appointment, s: int, now: int)
    requires Day(a.startsAt) == Day(b.startsAt)
    requires s in TimeSlots(a) && s in TimeSlots(b)
    ensures ConflictsWithExisting in ValidationErrors(b, [a], now)
  {
    ConflictRule(b, [a], now);
    assert a in [a] && Shared(b, a);
  }

  /** An appointment that passes every start-time rule is accepted on an empty table. */
  lemma {:induction false} AcceptedOnEmptyTable(a: Appointment, now: int)
    requires !Blank(a.kind) && !Blank(a.patientName) && Recognized(a.kind)
    requires OpeningHour <= Hour(a.startsAt) && Hour(EndsAt(a)) < ClosingHour
    requires now + LeadTime <= a.startsAt && OnHourOrHalfHour(a)
    ensures ValidationErrors(a, [], now) == []
  {
    assert ScheduledSlots([], Day(a.startsAt)) == [];
    RuleOutcomes(a, [], now);
  }

  /** At 09:00 on `day`, the initial "Alice" is accepted on an empty table. */
  lemma {:induction false} InitialAtNineAccepted(day: int, now: int)
    requires now + LeadTime <= DayStart(day) + 9 * SecondsPerHour
    ensures ValidationErrors(Appointment(DayStart(day) + 9 * SecondsPerHour, "initial", "Alice"), [], now) == []
  {
    var alice := Appointment(DayStart(day) + 9 * SecondsPerHour, "initial", "Alice");
    ClockOf(day, 9 * SecondsPerHour);
    ClockOf(day, 9 * SecondsPerHour + 90 * SecondsPerMinute);
    NamesAreNotBlank();
    RecognizedTypes("initial");
    AcceptedOnEmptyTable(alice, now);
  }

  /**
   * An initial at 09:00 is accepted on an empty table, yet a standard at 10:30
   * on the same day is then refused as a conflict (they share slot 1),
   * although the first ends at 10:30.
   */
  lemma {:induction false} StandardAfterInitialConflicts(day: int, now: int)
    requires now + LeadTime <= DayStart(day) + 9 * SecondsPerHour
    ensures var alice := Appointment(DayStart(day) + 9 * SecondsPerHour, "initial", "Alice");
            var bob := Appointment(DayStart(day) + 10 * SecondsPerHour + HalfHour, "standard", "Bob");
            && ValidationErrors(alice, [], now) == []
            && EndsAt(alice) == bob.startsAt
            && ConflictsWithExisting in ValidationErrors(bob, [alice], now)
  {
    var alice := Appointment(DayStart(day) + 9 * SecondsPerHour, "initial", "Alice");
    var bob := Appointment(DayStart(day) + 10 * SecondsPerHour + HalfHour, "standard", "Bob");
    InitialAtNineAccepted(day, now);
    ClockOf(day, 9 * SecondsPerHour);
    ClockOf(day, 10 * SecondsPerHour + HalfHour);
    SharedSlotConflicts(alice, bob, 1, now);
  }

  /**
   * Back to back standards at 09:00 and 10:00 conflict: both are given slot 1,
   * although the first ends when the second starts.
   */
  lemma {:induction false} BackToBackStandardsConflict(day: int, now: int)
    ensures var first := Appointment(DayStart(day) + 9 * SecondsPerHour, "standard", "Alice");
            var second := Appointment(DayStart(day) + 10 * SecondsPerHour, "standard", "Bob");
            && EndsAt(first) == second.startsAt
            && ConflictsWithExisting in ValidationErrors(second, [first], now)
  {
    var first := Appointment(DayStart(day) + 9 * SecondsPerHour, "standard", "Alice");
    var second := Appointment(DayStart(day) + 10 * SecondsPerHour, "standard", "Bob");
    ClockOf(day, 9 * SecondsPerHour);
    ClockOf(day, 10 * SecondsPerHour);
    SharedSlotConflicts(first, second, 1, now);
  }

  /** A standard at 16:00 ends exactly at 17:00 and is refused as too late. */
  lemma {:induction false} EndAtClosingIsTooLate(day: int, name: string, now: int)
    ensures TooLateInTheDay in ValidationErrors(Appointment(DayStart(day) + 16 * SecondsPerHour, "standard", name), [], now)
  {
    ClockOf(day, 16 * SecondsPerHour);
    ClockOf(day + 1, 0);
    assert DayStart(day) + 17 * SecondsPerHour == DayStart(day + 1) - 7 * SecondsPerHour;
    ClockOf(day, 17 * SecondsPerHour);
    ClosingRule(Appointment(DayStart(day) + 16 * SecondsPerHour, "standard", name), [], now);
  }

  /** An initial at 23:00 ends at 00:30 the next day, whose hour is 0: it is not too late. */
  lemma {:induction false} PastMidnightIsNotTooLate(day: int, name: string, now: int)
    ensures TooLateInTheDay !in ValidationErrors(Appointment(DayStart(day) + 23 * SecondsPerHour, "initial", name), [], now)
  {
    ClockOf(day, 23 * SecondsPerHour);
    assert DayStart(day) + 23 * SecondsPerHour + 90 * SecondsPerMinute == DayStart(day + 1) + HalfHour;
    ClockOf(day + 1, HalfHour);
    ClosingRule(Appointment(DayStart(day) + 23 * SecondsPerHour, "initial", name), [], now);
  }

  /** An initial at 22:30 ends at midnight, hour 0, and is accepted on an empty table. */
  lemma {:induction false} LateNightInitialAccepted(day: int, now: int)
    requires now + LeadTime <= DayStart(day) + 22 * SecondsPerHour + HalfHour
    ensures ValidationErrors(Appointment(DayStart(day) + 22 * SecondsPerHour + HalfHour, "initial", "Alice"), [], now) == []
  {
    var late := Appointment(DayStart(day) + 22 * SecondsPerHour + HalfHour, "initial", "Alice");
    ClockOf(day, 22 * SecondsPerHour + HalfHour);
    assert EndsAt(late) == DayStart(day + 1) + 0;
    ClockOf(day + 1, 0);
    NamesAreNotBlank();
    RecognizedTypes("initial");
    AcceptedOnEmptyTable(late, now);
  }

  /** Seconds are not looked at: 09:00:15 counts as on the hour. */
  lemma {:induction false} SecondsAreIgnored(day: int, kind: string, name: string, rows: seq<Appointment>, now: int)
    ensures NotOnHourOrHalfHour !in ValidationErrors(Appointment(DayStart(day) + 9 * SecondsPerHour + 15, kind, name), rows, now)
  {
    ClockOf(day, 9 * SecondsPerHour + 15);
    AlignmentRule(Appointment(DayStart(day) + 9 * SecondsPerHour + 15, kind, name), rows, now);
  }
}
