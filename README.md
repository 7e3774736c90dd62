# Appointment scheduling core of OnlineHealthConsultation, in Dafny

This project models the appointment-scheduling core of the OnlineHealthConsultation desktop
application. It covers three parts:

- **The data access layer** (`AppointmentDAO.java`). The appointments table becomes a `Store`
  object. It holds the rows in key order, the auto-increment counter and the open transaction, if
  any. `bookAppointment`, `rescheduleAppointment`, `updateStatus` and the two listings are methods
  on it. The Java `Appointment` object that callers hand in is a class whose `status` and `id` the
  booking updates.
- **The service layer** (`AppointmentService.java`). Booking, completing and cancelling are
  transactions: each either commits all of its writes or rolls the table back to where it began.
  The two listings are passed through from the data access layer.
- **The validators** (`ValidationUtil.java`). Each is a total predicate over a Java `String` that
  may be null (`Option<string>`), with `String.trim` and `String.isBlank` written out.

Times are whole minutes on one clock. A status is `Booked`, `Completed`, `Cancelled` or
`Other(text)`, because `updateStatus` stores any text. Wherever a JDBC call can throw
`SQLException`, the failure point is a parameter: `Fault` for the auto-commit DAO calls, `TxFault`
for the service transactions, and `failAfter` for the listings.

The modules are `Wrappers`, `JavaString`, `ValidationUtil`, `Appointments` (the table as values,
including the SQL updates and queries), `AppointmentDAO` and `AppointmentService`.

The service checks doctor availability before it inserts, to "prevent double booking". The body
of that check, `isDoctorAvailable`, is not in the source modelled here, so `BookAppointment` takes
the check as a function parameter. `AppointmentService` also states the intended availability rule
this model assumes for it: a doctor must not have two `BOOKED` appointments within 20 minutes of
each other, with both edges counting as a clash. `NoDoubleBooking` is that invariant, and
`DoctorAvailable` is the matching check. The 20-minute buffer is not in the source; it is the
model's choice of rule.

Where the code and its evident intent differ, the model follows the code:

- `rescheduleAppointment` checks nothing (see Findings).
- An update reports whether a row matched the key. MySQL Connector/J counts matched rows by
  default, so completing an appointment that is already `CANCELLED` or `COMPLETED` still returns
  true.
- The service's `bookAppointment` returns nothing and raises on failure. It does not return the
  new key.
- A listing that fails part-way returns the rows it had already read, not an empty list.
- The service's `bookAppointment` ignores the result of `insertAppointment`. If the insert reports
  failure by returning false instead of throwing, as the data access layer's own auto-commit
  methods do, the service commits and returns normally with no row added
  (`TxFault.WriteReportsFailure`).
- `isLengthBetween` measures `String.length`, which counts UTF-16 code units, so a character
  outside the Basic Multilingual Plane counts twice.

## Model

| member | source | states |
|---|---|---|
| `JavaString.TrimStart` | src/com/healthcare/utils/ValidationUtil.java:28 | the first half of `trim`: the result is a suffix of the input that does not start with a character at or below U+0020, and every character dropped is at or below U+0020 |
| `JavaString.TrimEnd` | src/com/healthcare/utils/ValidationUtil.java:28 | the second half of `trim`: the result is a prefix that does not end with a character at or below U+0020, and every character dropped is at or below U+0020 |
| `JavaString.Trim` | src/com/healthcare/utils/ValidationUtil.java:28 | `String.trim`: the result is no longer than the input and neither starts nor ends with a character at or below U+0020 |
| `JavaString.Utf16Length` | src/com/healthcare/utils/ValidationUtil.java:56 | `String.length` counts UTF-16 code units: between the number of characters and twice that |
| `JavaString.Utf16LengthIsCount` | src/com/healthcare/utils/ValidationUtil.java:56 | the length in code units equals the number of characters iff every character is in the Basic Multilingual Plane (both directions) |
| `JavaString.IsBlank` | src/com/healthcare/dao/AppointmentDAO.java:24 | `String.isBlank`: empty or only `Character.isWhitespace` characters; `StatusOrDefault` proves its result is never blank |
| `JavaString.TrimEmptyIff` | src/com/healthcare/utils/ValidationUtil.java:28 | `trim` gives the empty string exactly when every character is at or below U+0020 |
| `JavaString.TrimIdempotent` | src/com/healthcare/utils/ValidationUtil.java:56 | trimming a trimmed string changes nothing |
| `ValidationUtil.IsValidEmail` | src/com/healthcare/utils/ValidationUtil.java:17-22 | `isValidEmail`, as a greedy matcher; `EmailMatchesPattern` proves it equal to the regular expression read as a split |
| `ValidationUtil.IsNonEmpty` | src/com/healthcare/utils/ValidationUtil.java:27-29 | `isNonEmpty`; `NonEmptyIffVisibleChar` proves what it accepts |
| `ValidationUtil.IsValidMobile` | src/com/healthcare/utils/ValidationUtil.java:35-40 | `isValidMobile`: non-null, exactly ten characters, all ASCII digits; `MobileIsInteger` relates it to `isInteger` |
| `ValidationUtil.IsInteger` | src/com/healthcare/utils/ValidationUtil.java:45-49 | `isInteger`; `IntegerIffDigits` proves the trim test redundant |
| `ValidationUtil.IsLengthBetween` | src/com/healthcare/utils/ValidationUtil.java:54-58 | `isLengthBetween`, measuring the trimmed value in UTF-16 code units; `LengthBetweenProperties` and `SupplementaryCountsTwice` state its properties |
| `ValidationUtil.LocalRun` | src/com/healthcare/utils/ValidationUtil.java:21 | the greedy run of `[A-Za-z0-9+_.-]`: every character before it is in the class, and the one right after it is not |
| `ValidationUtil.EmailMatchesPattern` | src/com/healthcare/utils/ValidationUtil.java:17-22 | `isValidEmail` is false for null; otherwise it is true iff the string splits into one or more `[A-Za-z0-9+_.-]`, an `@`, and one or more `[A-Za-z0-9.-]` (both directions) |
| `ValidationUtil.ValidEmailHasOneAt` | src/com/healthcare/utils/ValidationUtil.java:21 | an accepted address contains exactly one `@` |
| `ValidationUtil.NonEmptyIffVisibleChar` | src/com/healthcare/utils/ValidationUtil.java:27-29 | `isNonEmpty` is true iff the value is non-null and has a character above U+0020 |
| `ValidationUtil.IntegerIffDigits` | src/com/healthcare/utils/ValidationUtil.java:45-49 | `isInteger` is true iff the value is non-null, non-empty and all ASCII digits; signs, spaces and padding give false |
| `ValidationUtil.MobileIsInteger` | src/com/healthcare/utils/ValidationUtil.java:35-49 | every number `isValidMobile` accepts (exactly ten ASCII digits), `isInteger` accepts too |
| `ValidationUtil.LengthBetweenProperties` | src/com/healthcare/utils/ValidationUtil.java:54-58 | `isLengthBetween` ignores padding, accepts nothing when `min > max`, and with `min = 1` implies `isNonEmpty` |
| `ValidationUtil.SupplementaryCountsTwice` | src/com/healthcare/utils/ValidationUtil.java:56-57 | a single character outside the Basic Multilingual Plane has length 2, not 1 |
| `Appointments.StatusRoundTrip` | src/com/healthcare/dao/AppointmentDAO.java:131-138 | reading a stored status text gives back the same text, and every canonical status survives the round trip |
| `Appointments.WithStatus` | src/com/healthcare/dao/AppointmentDAO.java:132-140 | `UPDATE appointments SET status = ? WHERE id = ?` on the table's rows; `UpdateTouchesOneRow` proves what it changes |
| `Appointments.WithSchedule` | src/com/healthcare/dao/AppointmentDAO.java:60-69 | `UPDATE appointments SET appointment_datetime = ?, status = 'BOOKED' WHERE id = ?`; `UpdateTouchesOneRow` proves what it changes |
| `Appointments.UpdateTouchesOneRow` | src/com/healthcare/dao/AppointmentDAO.java:131-140 | keys are unique, so an `UPDATE ... WHERE id = ?` changes exactly the row with that key if it exists and nothing otherwise, and keeps the table consistent |
| `Appointments.Select` | src/com/healthcare/dao/AppointmentDAO.java:82 | `WHERE column = v` keeps every matching row as often as it is stored, and no other row; a row is in the result iff it is in the table and matches |
| `Appointments.SortByTime` | src/com/healthcare/dao/AppointmentDAO.java:107 | `ORDER BY appointment_datetime` gives a time-ordered permutation of its input |
| `Appointments.Query` | src/com/healthcare/dao/AppointmentDAO.java:82 | the result set holds exactly the rows with the column value, with multiplicity, in time order |
| `Appointments.ReadPrefix` | src/com/healthcare/dao/AppointmentDAO.java:89-99 | the first m rows of a time-ordered result set are in order, are among the matching rows, come no later than any row left unread, and are all of them when reading reaches the end |
| `AppointmentDAO.Appointment.constructor` | src/com/healthcare/models/Appointment.java:21-29 | a new Appointment carries exactly the given field values |
| `AppointmentDAO.StatusOrDefault` | src/com/healthcare/dao/AppointmentDAO.java:23-26 | a null or blank status becomes `BOOKED`, a non-blank status is kept as given, and the result is never blank |
| `AppointmentDAO.Store.InsertRow` | src/com/healthcare/dao/AppointmentDAO.java:28-41 | the insert appends one row under the next generated key and advances the counter |
| `AppointmentDAO.Store.BookAppointment` | src/com/healthcare/dao/AppointmentDAO.java:18-56 | null gives false with no change. Otherwise the status is defaulted first. On success exactly one row is added with the appointment's columns, the appointment's id becomes the new key, and the result is true. A failure before the insert changes nothing. A failure after it keeps the row and returns false |
| `AppointmentDAO.Store.RescheduleAppointment` | src/com/healthcare/dao/AppointmentDAO.java:59-74 | sets the time of the row with this key and resets its status to `BOOKED`, with no availability check. The result is true iff a row matched and nothing failed. A failure before the update changes nothing |
| `AppointmentDAO.Store.SetScheduleWhere` | src/com/healthcare/dao/AppointmentDAO.java:60-69 | the reschedule statement: only the matching row changes, and the result is whether a row matched |
| `AppointmentDAO.Store.UpdateStatus` | src/com/healthcare/dao/AppointmentDAO.java:131-147 | only the status of the row with this key changes, to any text. The result is true iff a row matched and nothing failed. A missing key changes nothing |
| `AppointmentDAO.Store.SetStatusWhere` | src/com/healthcare/dao/AppointmentDAO.java:132-140 | the status statement: only the matching row changes, and the result is whether a row matched |
| `AppointmentDAO.Store.GetAppointmentsForPatient` | src/com/healthcare/dao/AppointmentDAO.java:80-100 | exactly the patient's rows with multiplicity, latest first, with equal times in any order, and the table is untouched. A failure after k rows gives k rows, none later in the order than a row left out; a connection failure gives none |
| `AppointmentDAO.Store.GetAppointmentsForDoctor` | src/com/healthcare/dao/AppointmentDAO.java:105-126 | exactly the doctor's rows with multiplicity, earliest first, with equal times in any order, and the table is untouched. A failure after k rows gives k rows, none later in the order than a row left out; a connection failure gives none |
| `AppointmentDAO.ReadResultSet` | src/com/healthcare/dao/AppointmentDAO.java:89-94 | the `while (rs.next())` loop appends the result set in order until it ends or reading throws |
| `AppointmentDAO.Store.Begin` | src/com/healthcare/service/AppointmentService.java:30 | `setAutoCommit(false)` records the state to roll back to and changes no row |
| `AppointmentDAO.Store.Commit` | src/com/healthcare/service/AppointmentService.java:48 | `commit` keeps every write made since the transaction began |
| `AppointmentDAO.Store.Rollback` | src/com/healthcare/service/AppointmentService.java:50-53 | `rollback` restores the rows and the counter as they were when the transaction began |
| `AppointmentService.BookAppointment` | src/com/healthcare/service/AppointmentService.java:19-60 | the status is defaulted before the transaction. The call succeeds iff availability held and nothing threw. With no fault the table then gains exactly the one row; an insert that reports failure instead of throwing still succeeds, with the table unchanged. An unavailable slot fails with "Doctor is already booked at the selected time.". Every failure leaves the table unchanged. With a check at least as strict as `DoctorAvailable`, no double booking arises |
| `AppointmentService.SetStatusInTransaction` | src/com/healthcare/service/AppointmentService.java:65-94 | the shared transaction body: the status of the matching row changes on commit. The result is whether a row matched. Any failure gives false with the table unchanged |
| `AppointmentService.MarkAppointmentCompleted` | src/com/healthcare/service/AppointmentService.java:65-94 | only the row with this key becomes `COMPLETED`, and the result is whether a row matched. Any failure gives false with no change. It keeps `NoDoubleBooking` |
| `AppointmentService.CancelAppointment` | src/com/healthcare/service/AppointmentService.java:99-128 | only the row with this key becomes `CANCELLED`, and the result is the update's result after commit. Any failure gives false with no change. It keeps `NoDoubleBooking` |
| `AppointmentService.GetAppointmentsForPatient` | src/com/healthcare/service/AppointmentService.java:133-136 | the data access layer's patient listing, with the same guarantees |
| `AppointmentService.GetAppointmentsForDoctor` | src/com/healthcare/service/AppointmentService.java:141-144 | the data access layer's doctor listing, with the same guarantees |
| `AppointmentService.BookingKeepsSchedule` | src/com/healthcare/service/AppointmentService.java:35-46 | inserting a row where its doctor is available keeps every doctor free of double bookings |
| `AppointmentService.AvailabilityAfterBooking` | src/com/healthcare/service/AppointmentService.java:35-43 | after a `BOOKED` row is added, a time is free for that doctor iff it was free before and is more than 20 minutes from the new row |
| `AppointmentService.StatusChangeKeepsSchedule` | src/com/healthcare/service/AppointmentService.java:74-77 | moving rows to a status other than `BOOKED` never creates a double booking |
| `AppointmentService.CancelFreesSlot` | src/com/healthcare/service/AppointmentService.java:108-111 | cancelling the one appointment that held a slot makes the slot available again |
| `AppointmentService.RescheduleCanDoubleBook` | src/com/healthcare/dao/AppointmentDAO.java:59-69 | moving an appointment onto the time of another `BOOKED` appointment of the same doctor breaks `NoDoubleBooking`, whatever the moved appointment's status was |
| `AppointmentService.DirectBookingCanDoubleBook` | src/com/healthcare/gui/BookAppointmentFrame.java:80 | inserting a `BOOKED` row within 20 minutes of a `BOOKED` row of the same doctor breaks `NoDoubleBooking` |
| `AppointmentService.DoubleBookingThroughDao` | src/com/healthcare/gui/BookAppointmentFrame.java:80 | both bookings through the data access layer return true, leaving doctor 7 with two `BOOKED` appointments at 15:30 (minute 930) |
| `AppointmentService.DoubleBookingThroughReschedule` | src/com/healthcare/gui/PatientAppointmentsFrame.java:157 | two bookings 40 minutes apart pass the service's check, then `rescheduleAppointment` moves the second onto the first and double-books the doctor |
| `AppointmentService.RescheduleKeepsSchedule` | src/com/healthcare/dao/AppointmentDAO.java:59-69 | moving one appointment to a time that no other appointment of its doctor blocks keeps `NoDoubleBooking` |
| `AppointmentService.RescheduleAppointment` | src/com/healthcare/dao/AppointmentDAO.java:59-69 | the corrected reschedule runs in one transaction. A missing key gives false. It moves the row and resets it to `BOOKED` iff the new time is free of the doctor's other `BOOKED` appointments and nothing failed; it fails with the conflict message iff the key exists and the time is taken; otherwise the table is unchanged. It keeps `NoDoubleBooking` |

## Findings

| source | as written | input that shows it | evidently intended | confidence | as-written member | corrected member |
|---|---|---|---|---|---|---|
| src/com/healthcare/dao/AppointmentDAO.java:59-69 | `rescheduleAppointment` moves the row and resets it to `BOOKED` without checking the doctor's other appointments. The patient screen calls it directly | doctor 7 booked at 15:30 and at 16:10 (both pass the service's check), then the second is rescheduled to 15:30 | recheck availability at the new time for the same doctor, ignoring the appointment being moved, inside the transaction that moves it | high that the check is missing; not executed | `AppointmentService.DoubleBookingThroughReschedule` | `AppointmentService.RescheduleAppointment` |
| src/com/healthcare/gui/BookAppointmentFrame.java:80 | the booking screen books through `AppointmentDAO.bookAppointment`, which inserts without any availability check | two bookings of doctor 7 at 15:30 | book through `AppointmentService.bookAppointment`, which checks availability in the same transaction as the insert | high that the check is bypassed; not executed | `AppointmentService.DoubleBookingThroughDao` | `AppointmentService.BookAppointment` |

## Left out

- The Swing screens (LoginFrame, PatientDashboard, DoctorDashboard, PatientAppointmentsFrame,
  BookAppointmentFrame) and UITheme: rendering and dialogs. The "already COMPLETED" guard in
  DoctorDashboard is a check in the caller. The unused `handleBooking` validation in
  BookAppointmentFrame is never wired to a button.
- DBConnection, DBConfig and Main: driver loading, credentials and seeding are configuration and I/O.
- UserDAO: login plumbing, outside the scheduling core.
- The bodies of `isDoctorAvailable`, `insertAppointment`, the connection-taking `updateStatus` and
  `AppointmentDAO.cancelAppointment` are not part of this model. The availability check is a
  parameter, and `DoctorAvailable` is the intended rule, not the source's query. The insert and
  status updates reuse the shown statements, and `insertAppointment` is taken to set the key on the
  appointment as `bookAppointment` does. Cancelling is `updateStatus(id, "CANCELLED")`, as the
  patient screen does it.
- Concurrency and transaction isolation: operations run one after another. Atomicity is stated
  only as "committed whole, or the table as it was". The DAO mutators require that no transaction
  is open.
- The availability query throwing is not a separate failure. `TxFault.StatementFails` is the
  writing statement throwing, and both lead to rollback.
- `con.rollback()` or `con.close()` throwing inside the service's handlers is not modelled.
- `AppointmentDAO.Store.BookAppointment`: a `close()` that throws after the key was already stored
  in the appointment is not a separate case; `FailsAfterUpdate` is the failure right after the
  insert.
- Rollback also restores the auto-increment counter. InnoDB does not do that, so a real database
  would skip the keys a rolled-back insert consumed.
- `LocalDateTime`, `Timestamp` and date parsing: times are integer minutes and never null. So the
  null-timestamp branch of `mapRowToAppointment` and the `NullPointerException` of
  `Timestamp.valueOf(null)` are absent. The listings return row values, since
  `mapRowToAppointment` copies every column into a fresh object.
- `AppointmentService.BookAppointment` takes a non-null appointment, because the source dereferences
  it before any check. A null `newStatus` for `updateStatus` is not modelled.
- Java's 32-bit `int` for keys and party ids: the model's integers are unbounded, so key overflow
  is not modelled.
- SQL leaves the order of equal times open. The model's sort keeps table order for them, but the
  contracts promise only time order.
- Unpaired UTF-16 surrogates in strings are not modelled. Characters are Unicode scalar values;
  `Utf16Length` gives `String.length` for them.
