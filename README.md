# Appointment scheduling engine

This project models the booking rules of a small clinic-scheduling web service.
An appointment has a start time, a type string and a patient name, and all
appointments live in one table. The availability listing offers the half-hour
marks from 09:00 to 16:30 UTC of a day; the validations that guard a booking
are looser than that grid (see below).

- `Appointment` (`app/models/appointment.rb`) holds the rules:
  - the type table and the length of each type;
  - the list of half-hour slots an appointment occupies;
  - selecting the stored rows of one calendar day;
  - the presence and inclusion validations;
  - four start-time rules, run only when a record is created: no overlap, business hours, a two-hour lead time, on the hour or half hour;
  - saving, which inserts the row only when no error was collected.
- `AppointmentsController` (`app/controllers/appointments_controller.rb`) has three actions:
  - `index` tries sixteen half-hour start times on a day and lists the ones that pass validation;
  - `create` books one appointment or reports its errors;
  - `schedule` lists the rows of one day, or reports "Invalid date".

The model is split into five files:

- `clock.dfy` (module `Clock`) is UTC clock arithmetic on whole seconds since the epoch. A date is a day number. Dafny's Euclidean `/` and `%` match Ruby's flooring for instants before the epoch.
- `appointment.dfy` (module `Appointments`) holds the model itself:
  - the data and the pure lookups;
  - the table invariant (`Consistent`);
  - the store class, `AppointmentStore`;
  - the record class, `AppointmentRecord`. Its rule methods append to `errors` one step at a time, as `starts_at_is_ok` does. `IsValid` and `Save` are proved against the function `ValidationErrors`.
- `appointments_controller.dfy` (module `AppointmentsController`) holds the three actions. `Index` is a loop over one reused record. It is proved against the function `Available`.
- `appointment_properties.dfy` (module `AppointmentProperties`) states each validation rule as an if-and-only-if, proves the order of the messages, and proves concrete cases where the code behaves differently from what one would expect.
- `wrappers.dfy` holds the `Option` and `Result` types.

The main theorem is that stored rows never overlap in real time. Every saved row
passed validation, so the half-open intervals `[starts_at, starts_at + length)`
of any two rows are disjoint. `Save` and `Create` preserve this invariant. It
holds even though the slot test ignores the start minute, because the test is
conservative for the lengths an accepted type can have: 0, 60 or 90 minutes.

### Where the code and its tests disagree

The model follows the code. The repository's own tests expect the following
differently; each point is a proved lemma here.

- **"checkin" and "checking".** The recognized type values are "initial", "standard" and "checking".
  - "checkin" has a 30-minute length but is rejected as unrecognized.
  - "checking" is accepted but has length 0 and no slots.
  - Proved by `CheckinTypo`, `UnrecognizedTypeHasNoAvailability` and `EmptyDayCounts`. The tests book and list "checkin" appointments (spec/requests/appointments_spec.rb:26-34, spec/models/appointment_spec.rb:19).
- **The start minute is ignored by `time_slots`.** The first slot is the start hour minus 9. Proved by `SlotsIgnoreMinute` and `HalfPastSharesHourSlots`. Two consequences:
  - an initial at 09:00 followed by a standard at 10:30 conflicts (`StandardAfterInitialConflicts`), while spec/models/appointment_spec.rb:14-23 expects both, and two more, to be saved;
  - back-to-back standards at 09:00 and 10:00 conflict (`BackToBackStandardsConflict`).
- **An end at exactly 17:00 is rejected.** The rule compares the end's hour with 17 (`EndAtClosingIsTooLate`). An appointment that runs past midnight has a small end hour and is accepted by this rule (`PastMidnightIsNotTooLate`); an initial at 22:30 passes every validation on an empty table (`LateNightInitialAccepted`).
- **Stray seconds pass.** A start at 09:00:15 counts as on the hour (`SecondsAreIgnored`).
- **Availability on an empty day.** There are 13 slots for "initial", 14 for "standard", 16 for "checking" and 0 for "checkin" (`EmptyDayCounts`). spec/requests/appointments_spec.rb:6-34 expects 14 initial, 15 standard and 16 checkin.
- **`schedule` does no sorting.** The query has no ORDER BY, so its row order is not defined; the model returns rows in insertion order. spec/requests/appointments_spec.rb:150-164 expects start-time order (which insertion order happens to give there).
- **No `ends_at`.** There is no `ends_at` attribute; the only end time the code uses is `starts_at + appointment_length` (`EndsAt`). spec/models/appointment_spec.rb:79-99 reads `ends_at`.
- **No short cut for an unrecognized type.** The type is not checked first: all four start-time rules still run and add their messages (`RuleOutcomes`, `LeadTimeRule`).

## Model

| member | source | states |
|---|---|---|
| Clock.Day | app/models/appointment.rb:48 | definition (`to_date`); specified by `Clock.InDayIff` |
| Clock.DayEnd | app/controllers/appointments_controller.rb:24 | definition (`end_of_day`); specified by `AppointmentsController.DayRangeIsSchedule` |
| Appointments.AppointmentStore.constructor | db/migrate/20230928002425_create_appointments.rb:3-9 | the table starts empty and consistent |
| Appointments.Recognized | app/models/appointment.rb:17 | definition; specified by `Appointments.RecognizedTypes` |
| Appointments.Blank | app/models/appointment.rb:16 | definition (`blank?`); specified by `Appointments.BlankIffAllSpace` |
| Appointments.BlankIffAllSpace | app/models/appointment.rb:16 | a value is blank exactly when every character is whitespace, the empty string included |
| Appointments.EndsAt | app/models/appointment.rb:56 | definition; specified by `AppointmentProperties.LengthByType` and `AppointmentProperties.SlotsCoverLength` |
| Appointments.RangeAscending | app/models/appointment.rb:33 | `(lo..hi).to_a` lists `lo, lo + 1, …, hi` in ascending order |
| Appointments.ScheduleCounts | app/models/appointment.rb:22 | every copy of a row starting on the day is kept, and no copy of any other row |
| Appointments.SlotsOf | app/models/appointment.rb:26 | definition; specified by `Appointments.SlotsOfMembers` |
| Appointments.ScheduledSlots | app/models/appointment.rb:25-27 | definition; specified by `Appointments.ScheduledSlotsMembers` |
| Appointments.Conflicts | app/models/appointment.rb:48 | definition; specified by `AppointmentProperties.ConflictWitness` and `AppointmentProperties.ConflictRule` |
| Appointments.ValidationErrors | app/models/appointment.rb:16-71 | definition of the errors `valid?` leaves; specified by `AppointmentProperties.RuleOutcomes` and `AppointmentProperties.ErrorsInRuleOrder` |
| AppointmentsController.Candidate | app/controllers/appointments_controller.rb:7 | definition (`date + start_time.hours`); specified by `AppointmentsController.MarkClock` |
| AppointmentsController.Available | app/controllers/appointments_controller.rb:2-11 | definition; specified by `AppointmentsController.AvailableIsFilteredMarks` and computed by `AppointmentsController.Index` |
| AppointmentsController.RowsBetweenCounts | app/controllers/appointments_controller.rb:24 | every copy of a row in the closed range is kept, and no copy of any other row |
| Clock.Hour | app/models/appointment.rb:31 | `starts_at.hour` is in 0..23 |
| Clock.Minute | app/models/appointment.rb:68 | `starts_at.min` is in 0..59 |
| Clock.InDayIff | app/models/appointment.rb:48 | `starts_at.to_date == date` holds exactly when `date <= starts_at < date.tomorrow` |
| Appointments.AppointmentLength | app/models/appointment.rb:36-38 | the length is a non-negative whole number of half hours, and it is positive exactly for the keys of `APPOINTMENT_LENGTH` |
| Appointments.Range | app/models/appointment.rb:33 | `(lo..hi).to_a` has `hi - lo + 1` elements (none when `hi < lo`), and they are exactly the integers in `[lo, hi]` |
| Appointments.TimeSlots | app/models/appointment.rb:30-34 | there is one slot per half hour of length, and the slots are exactly the consecutive integers from `hour - 9` |
| Appointments.Schedule | app/models/appointment.rb:21-23 | keeps exactly the stored rows that start on the given day, and never more rows than the table has |
| Appointments.SlotsOfMembers | app/models/appointment.rb:26 | the flattened slot list holds exactly the slots of the listed appointments |
| Appointments.ScheduledSlotsMembers | app/models/appointment.rb:25-27 | a slot is taken on a day exactly when some row starting that day occupies it |
| Appointments.RecognizedTypes | app/models/appointment.rb:4-8 | a type passes inclusion exactly when it is "initial", "standard" or "checking" |
| Appointments.RecognizedLengths | app/models/appointment.rb:10-14 | a recognized type is 90 or 60 minutes long, or 0 minutes for "checking" |
| Appointments.AcceptedIsAdmissible | app/models/appointment.rb:16-18 | a record with no validation error has a recognized type, starts at 9 or later, and shares no slot with its day's rows |
| Appointments.SameDayDisjointSlots | app/models/appointment.rb:30-34 | two admissible appointments on the same day with disjoint slot lists do not overlap in time |
| Appointments.DifferentDays | app/models/appointment.rb:53-59 | admissible appointments on different days do not overlap in time |
| Appointments.AcceptedDoesNotOverlap | app/models/appointment.rb:47-59 | an appointment that passes validation overlaps no admissible stored row in time |
| Appointments.SavePreservesConsistency | app/models/appointment.rb:16-18 | appending a validated appointment to a consistent table leaves it consistent |
| Appointments.AppointmentRecord.constructor | app/controllers/appointments_controller.rb:4 | a new record carries the given attributes and no errors |
| Appointments.AppointmentRecord.DoesNotOverlap | app/models/appointment.rb:47-51 | appends "conflicts with an existing appointment" exactly when a slot is shared with the day's rows; nothing else changes |
| Appointments.AppointmentRecord.DuringBusinessHours | app/models/appointment.rb:53-59 | appends "is before 9 AM" for an hour below 9, otherwise "too late" for an end hour of 17 or more |
| Appointments.AppointmentRecord.NotTooSoon | app/models/appointment.rb:61-65 | appends the lead-time message exactly when `starts_at < now + 2h` |
| Appointments.AppointmentRecord.OnTheHourOrHalfHour | app/models/appointment.rb:67-71 | appends the alignment message exactly when the minute is neither 0 nor 30 |
| Appointments.AppointmentRecord.StartsAtIsOk | app/models/appointment.rb:40-45 | runs all four rules, always, and appends their messages in the order overlap, hours, lead time, alignment |
| Appointments.AppointmentRecord.IsValid | app/models/appointment.rb:16-18 | `valid?` clears the errors and leaves exactly the validation errors of the record against the table; the answer is true exactly when there are none |
| Appointments.AppointmentRecord.Save | app/models/appointment.rb:16-18 | the table grows by exactly this row when no error was collected and is unchanged otherwise; the no-overlap invariant is preserved |
| AppointmentsController.TryMark | app/controllers/appointments_controller.rb:7-8 | moves the record to the k-th half-hour mark and reports whether that proposal passes validation |
| AppointmentsController.Index | app/controllers/appointments_controller.rb:2-11 | the answer is exactly `Available`: the bookable proposals among the sixteen marks, in mark order; the table is not modified |
| AppointmentsController.KeptMembers | app/controllers/appointments_controller.rb:6-8 | a proposal is kept exactly when its mark is below the bound and is accepted |
| AppointmentsController.KeptAscending | app/controllers/appointments_controller.rb:6-8 | the kept proposals are at most as many as the marks tried, strictly ascending, and before the next mark |
| AppointmentsController.KeptCount | app/controllers/appointments_controller.rb:6-8 | when exactly the first m marks are accepted, min(n, m) proposals are kept |
| AppointmentsController.AvailableIsFilteredMarks | app/controllers/appointments_controller.rb:4-9 | at most 16 proposals, strictly ascending, each the proposal of one of the sixteen marks with the requested type and placeholder name; a mark's proposal is listed exactly when it passes every validation |
| AppointmentsController.AvailableRespectsLeadTime | app/controllers/appointments_controller.rb:8 | nothing offered starts before `now + 2h` |
| AppointmentsController.UnrecognizedTypeHasNoAvailability | app/controllers/appointments_controller.rb:4-9 | an unrecognized type string, "checkin" included, gets an empty list |
| AppointmentsController.MarkClock | app/controllers/appointments_controller.rb:7 | the j-th half-hour mark after 09:00 reads as hour 9 + j/2 and minute 0 or 30 on the same day |
| AppointmentsController.EmptyDayMark | app/controllers/appointments_controller.rb:6-8 | on an empty table, beyond the lead time, a mark is bookable exactly when the type's slots end before the 16th mark |
| AppointmentsController.EmptyDayCounts | app/controllers/appointments_controller.rb:2-11 | on an empty day there are 13 initial, 14 standard, 16 "checking" and no "checkin" proposals |
| AppointmentsController.Create | app/controllers/appointments_controller.rb:13-20 | success exactly when there are no validation errors, with the row appended; otherwise the errors are returned and the table is unchanged; the invariant is preserved |
| AppointmentsController.RowsBetween | app/controllers/appointments_controller.rb:24 | keeps exactly the rows whose start lies in the closed range |
| AppointmentsController.DayRangeIsSchedule | app/controllers/appointments_controller.rb:24 | `beginning_of_day..end_of_day` selects the same rows, in the same order, as `Appointment.schedule(date)` |
| AppointmentsController.GetSchedule | app/controllers/appointments_controller.rb:22-28 | an unparseable date gives the single error "Invalid date"; a date gives exactly that day's rows in table order |
| AppointmentsController.ScheduleAfterCreate | app/controllers/appointments_controller.rb:15 | an appended row is listed last in its own day's schedule; every other day's schedule is unchanged |
| AppointmentProperties.RuleOutcomes | app/models/appointment.rb:16-71 | each message is present exactly when its test fails, and there are no errors exactly when every test passes |
| AppointmentProperties.ErrorsInRuleOrder | app/models/appointment.rb:40-45 | messages come in the order presence, inclusion, overlap, hours, lead time, alignment; each rule adds at most one, and never both business-hours messages |
| AppointmentProperties.InclusionRule | app/models/appointment.rb:17 | "is unrecognized" is present exactly when the type is not one of the stored values |
| AppointmentProperties.ConflictRule | app/models/appointment.rb:47-51 | the conflict message is present exactly when a stored row starting on the same day shares a slot with the candidate |
| AppointmentProperties.ConflictWitness | app/models/appointment.rb:25-27 | a slot is shared with the day's slot list exactly when some row of that day shares it |
| AppointmentProperties.BeforeOpeningRule | app/models/appointment.rb:53-55 | "is before 9 AM" is present exactly when the hour is below 9, and then "too late" is absent |
| AppointmentProperties.ClosingRule | app/models/appointment.rb:56-58 | from 9 AM on, "too late" is present exactly when the end's hour is 17 or more |
| AppointmentProperties.LeadTimeRule | app/models/appointment.rb:61-65 | the lead-time message is present exactly when `starts_at < now + 2h`, so a start at exactly `now + 2h` passes |
| AppointmentProperties.AlignmentRule | app/models/appointment.rb:67-71 | the alignment message is present exactly when the minute is neither 0 nor 30 |
| AppointmentProperties.ValidIffAllRulesPass | app/models/appointment.rb:16-18 | a record is valid exactly when it meets presence, inclusion, no conflict, 9 ≤ hour, end hour < 17, the lead time and the alignment |
| AppointmentProperties.ValidIffClockRulesPass | app/models/appointment.rb:16-71 | a record is valid exactly when it is not blank, its type is recognized, it shares no slot, 9 ≤ hour, end hour < 17, it respects the lead time and it is aligned |
| AppointmentProperties.LengthByType | app/models/appointment.rb:10-14 | initial, standard and checkin last 90, 60 and 30 minutes, with 3, 2 and 1 slots; any other string has length 0 and no slots |
| AppointmentProperties.SlotsCoverLength | app/models/appointment.rb:32 | the slots cover the length exactly: slot count times 30 minutes equals the length |
| AppointmentProperties.SlotsIgnoreMinute | app/models/appointment.rb:31 | the slot list depends only on the start hour and the type |
| AppointmentProperties.CheckinTypo | app/models/appointment.rb:4-14 | "checkin" has 30 minutes but is unrecognized; "checking" is recognized but has length 0 and no slots |
| AppointmentProperties.HalfPastSharesHourSlots | app/models/appointment.rb:31 | a 09:30 start gets the same slots as a 09:00 start |
| AppointmentProperties.SharedSlotConflicts | app/models/appointment.rb:47-51 | a row of the same day that shares one slot with the candidate makes it conflict |
| AppointmentProperties.AcceptedOnEmptyTable | app/models/appointment.rb:16-18 | on an empty table, a record that passes presence, inclusion and every start-time test has no errors |
| AppointmentProperties.InitialAtNineAccepted | app/models/appointment.rb:16-18 | an initial at 09:00 beyond the lead time is accepted on an empty table |
| AppointmentProperties.StandardAfterInitialConflicts | app/models/appointment.rb:30-34 | after an initial at 09:00, a standard at 10:30 (its end) is refused as a conflict |
| AppointmentProperties.BackToBackStandardsConflict | app/models/appointment.rb:30-34 | a standard at 10:00 conflicts with one at 09:00 that ends at 10:00 |
| AppointmentProperties.EndAtClosingIsTooLate | app/models/appointment.rb:56 | a standard at 16:00, ending at 17:00, is refused as too late |
| AppointmentProperties.PastMidnightIsNotTooLate | app/models/appointment.rb:56 | an initial at 23:00 ends at 00:30 and is not refused as too late |
| AppointmentProperties.LateNightInitialAccepted | app/models/appointment.rb:56 | an initial at 22:30, ending at midnight (hour 0), is accepted on an empty table |
| AppointmentProperties.SecondsAreIgnored | app/models/appointment.rb:68 | a 09:00:15 start counts as on the hour |

## Left out

- HTTP transport is not modelled: routing, strong parameters, JSON rendering and status codes. `create` and `schedule` return a `Result`; `index` returns the proposals.
- Error messages are tags (`ErrorMsg`) filed per attribute. `errors.full_messages` formatting is not modelled.
- Date strings are not parsed. `index` and `create` take a day number and an instant. `schedule` takes an `Option`, where `None` stands for a string `Date.parse` rejects.
- The exception `index` raises on an unparseable date is not modelled.
- A nil `starts_at` or nil `type` crashes inside the start-time rules, so it is not modelled: both are always present. A nil `patient_name` is the empty string, which is blank as nil is.
- `Time.now` is the parameter `now`. Instants are whole seconds: sub-second precision is not modelled.
- Time zones are not modelled: everything is UTC.
- The float stepping `(9..16.5).step(0.5)` is the integer mark index 0..15.
- AppointmentsController.GetSchedule: the `where` query has no ORDER BY, so the database may return the day's rows in any order; the model returns them in insertion order.
- ActiveRecord ids, timestamps, SQL and `dup` are not modelled. The table is a sequence of rows, and `index` keeps a value copy of its record.
- Concurrent requests racing between the overlap query and the insert are not modelled.
- Validation on update is not modelled. `starts_at_is_ok` runs only on create, and every record here is new.
- `Blank` treats the Unicode `[[:space:]]` characters as blank. Ruby's `blank?` also treats a string with invalid encoding differently; strings here are sequences of characters, so that case does not arise.
