/**
  AppointmentService: booking, completing and cancelling as transactions on the appointments table,
  and the two listings passed through from the data access layer. Each transaction either commits
  all of its writes or rolls the table back to the state it began in.

  The service checks doctor availability "to prevent double booking", but the body of that check is
  not in the source modelled here, so it is a parameter of BookAppointment. DoctorAvailable below is
  the intended availability rule this model assumes for it (no BOOKED appointment of the same doctor
  within 20 minutes either side, edges included).
 */
module AppointmentService {
  import opened Wrappers
  import opened JavaString
  import opened Appointments
  import DAO = AppointmentDAO

  /** The message of the exception bookAppointment raises when the doctor is not available. */
  const ConflictMessage: string := "Doctor is already booked at the selected time."

  /** What a failed service call reports: the slot is taken, or the database failed. */
  datatype ServiceError = SchedulingConflict(message: string) | PersistenceFailure

  /** Where a transaction's JDBC calls throw, if they do. */
  datatype TxFault =
    | NoFault
      /** getConnection or setAutoCommit(false) throws: no transaction is open. */
    | ConnectFails
      /** The statement that writes (insert or status update) throws. */
    | StatementFails
      /**
        The writing DAO method catches its own SQLException and reports false instead of throwing,
        as the data access layer's auto-commit methods do; the service goes on to commit.
       */
    | WriteReportsFailure
      /** commit throws after the writes. */
    | CommitFails

  // ---------------------------------------------------------------------------------------------
  // The scheduling rule

  /** The buffer on either side of an appointment within which the same doctor cannot be booked again. */
  const BufferMinutes: int := 20

  function Distance(a: int, b: int): nat {
    if a <= b then b - a else a - b
  }

  /** r is a BOOKED appointment of doctorId within the buffer around time. */
  predicate Blocks(r: Row, doctorId: int, time: int) {
    r.doctorId == doctorId && r.status == Booked && Distance(r.time, time) <= BufferMinutes
  }

  /** The intended availability rule for isDoctorAvailable (its body is not in the source): no row blocks the slot. */
  predicate DoctorAvailable(rows: seq<Row>, doctorId: int, time: int) {
    forall i :: 0 <= i < |rows| ==> !Blocks(rows[i], doctorId, time)
  }

  /** The same rule, ignoring the rows with key id (the appointment being moved). */
  predicate AvailableExcept(rows: seq<Row>, doctorId: int, time: int, id: int) {
    forall i :: 0 <= i < |rows| && rows[i].id != id ==> !Blocks(rows[i], doctorId, time)
  }

  /** Two BOOKED appointments of one doctor within the buffer of each other. */
  predicate Clash(a: Row, b: Row) {
    b.status == Booked && Blocks(a, b.doctorId, b.time)
  }

  /** The invariant the availability check exists for: no doctor is double-booked. */
  predicate NoDoubleBooking(rows: seq<Row>) {
    forall i, j :: 0 <= i < |rows| && 0 <= j < |rows| && i != j ==> !Clash(rows[i], rows[j])
  }

  /** Adding a row to a table where its doctor is available keeps every doctor free of double bookings. */
  lemma BookingKeepsSchedule(rows: seq<Row>, r: Row)
    requires NoDoubleBooking(rows)
    requires DoctorAvailable(rows, r.doctorId, r.time)
    ensures NoDoubleBooking(rows + [r])
  {
    var after := rows + [r];
    forall i, j | 0 <= i < |after| && 0 <= j < |after| && i != j
      ensures !Clash(after[i], after[j])
    {
      if i == |rows| {
        assert !Blocks(rows[j], r.doctorId, r.time);
      } else if j == |rows| {
        assert !Blocks(rows[i], r.doctorId, r.time);
      } else {
        assert !Clash(rows[i], rows[j]);
      }
    }
  }

  /**
    After a BOOKED row for a doctor is added, a time is still free for that doctor exactly when it
    was free before and lies more than the buffer away from the new row.
   */
  lemma AvailabilityAfterBooking(rows: seq<Row>, r: Row, time: int)
    requires r.status == Booked
    ensures DoctorAvailable(rows + [r], r.doctorId, time)
        <==> DoctorAvailable(rows, r.doctorId, time) && Distance(r.time, time) > BufferMinutes
  {
    var after := rows + [r];
    assert after[|rows|] == r;
    if DoctorAvailable(rows, r.doctorId, time) && Distance(r.time, time) > BufferMinutes {
      forall i | 0 <= i < |after|
        ensures !Blocks(after[i], r.doctorId, time)
      {
        if i < |rows| {
          assert after[i] == rows[i];
        }
      }
    }
    if DoctorAvailable(after, r.doctorId, time) {
      forall i | 0 <= i < |rows|
        ensures !Blocks(rows[i], r.doctorId, time)
      {
        assert after[i] == rows[i];
      }
    }
  }

  /** Moving rows to a status other than BOOKED never creates a double booking. */
  lemma StatusChangeKeepsSchedule(rows: seq<Row>, id: int, st: Status)
    requires st != Booked
    requires NoDoubleBooking(rows)
    ensures NoDoubleBooking(WithStatus(rows, id, st))
  {
    var after := WithStatus(rows, id, st);
    forall i, j | 0 <= i < |after| && 0 <= j < |after| && i != j
      ensures !Clash(after[i], after[j])
    {
      assert !Clash(rows[i], rows[j]);
    }
  }

  /** Cancelling the appointment that held a slot frees that slot for its doctor. */
  lemma CancelFreesSlot(rows: seq<Row>, id: int, doctorId: int, time: int)
    requires forall i :: 0 <= i < |rows| && Blocks(rows[i], doctorId, time) ==> rows[i].id == id
    ensures DoctorAvailable(WithStatus(rows, id, Cancelled), doctorId, time)
  {
    var after := WithStatus(rows, id, Cancelled);
    forall i | 0 <= i < |after|
      ensures !Blocks(after[i], doctorId, time)
    {
      if rows[i].id != id {
        assert after[i] == rows[i];
      }
    }
  }

  /**
    Moving one appointment to a time at which no other appointment of its doctor is within the
    buffer keeps every doctor free of double bookings. Keys are unique, so only that row moves.
   */
  lemma RescheduleKeepsSchedule(rows: seq<Row>, nextId: int, k: nat, time: int)
    requires Consistent(rows, nextId) && NoDoubleBooking(rows)
    requires k < |rows|
    requires AvailableExcept(rows, rows[k].doctorId, time, rows[k].id)
    ensures NoDoubleBooking(WithSchedule(rows, rows[k].id, time))
  {
    var id := rows[k].id;
    var after := WithSchedule(rows, id, time);
    forall i | 0 <= i < |rows| && i != k
      ensures rows[i].id != id && after[i] == rows[i]
    {
      if i < k { assert rows[i].id < rows[k].id; } else { assert rows[k].id < rows[i].id; }
    }
    forall i, j | 0 <= i < |after| && 0 <= j < |after| && i != j
      ensures !Clash(after[i], after[j])
    {
      if i == k {
        assert !Blocks(rows[j], rows[k].doctorId, time);
      } else if j == k {
        assert !Blocks(rows[i], rows[k].doctorId, time);
      } else {
        assert !Clash(rows[i], rows[j]);
      }
    }
  }

  // ---------------------------------------------------------------------------------------------
  // The data access layer bypasses the rule

  /**
    rescheduleAppointment as written checks nothing: moving any appointment of a doctor onto the
    time of another BOOKED appointment of the same doctor double-books that doctor, whatever the
    moved appointment's status was.
   */
  lemma RescheduleCanDoubleBook(rows: seq<Row>, nextId: int, i: nat, j: nat)
    requires Consistent(rows, nextId)
    requires i < |rows| && j < |rows| && i != j
    requires rows[i].doctorId == rows[j].doctorId && rows[i].status == Booked
    ensures !NoDoubleBooking(WithSchedule(rows, rows[j].id, rows[i].time))
  {
    var after := WithSchedule(rows, rows[j].id, rows[i].time);
    if i < j { assert rows[i].id < rows[j].id; } else { assert rows[j].id < rows[i].id; }
    assert after[i] == rows[i];
    assert Clash(after[i], after[j]);
  }

  /**
    bookAppointment in the data access layer inserts without asking: a BOOKED row near another
    BOOKED row of the same doctor double-books that doctor.
   */
  lemma DirectBookingCanDoubleBook(rows: seq<Row>, i: nat, r: Row)
    requires i < |rows| && rows[i].status == Booked && r.status == Booked
    requires rows[i].doctorId == r.doctorId && Distance(rows[i].time, r.time) <= BufferMinutes
    ensures !NoDoubleBooking(rows + [r])
  {
    var after := rows + [r];
    assert after[i] == rows[i] && after[|rows|] == r;
    assert Clash(after[i], after[|rows|]);
  }

  /**
    Both bookings go through: the booking screen calls the data access layer's bookAppointment,
    which leaves the doctor with two BOOKED appointments at the same minute.
   */
  method DoubleBookingThroughDao() returns (ok1: bool, ok2: bool, rows: seq<Row>)
    ensures ok1 && ok2
    ensures |rows| == 2 && rows[0].id != rows[1].id
    ensures rows[0].doctorId == 7 && rows[1].doctorId == 7 && rows[0].time == 930 && rows[1].time == 930
    ensures rows[0].status == Booked && rows[1].status == Booked
    ensures !NoDoubleBooking(rows)
  {
    var store := new DAO.Store();
    var first := new DAO.Appointment(0, 1, 7, 930, Some(BookedText), None);
    ok1 := store.BookAppointment(first, DAO.NoFault);
    var second := new DAO.Appointment(0, 2, 7, 930, None, None);
    ok2 := store.BookAppointment(second, DAO.NoFault);
    rows := store.rows;
    assert Clash(rows[0], rows[1]);
  }

  /**
    Two bookings 40 minutes apart pass the service's check, and then the data access layer's
    rescheduleAppointment moves the second onto the first.
   */
  method DoubleBookingThroughReschedule() returns (booked: bool, moved: bool, rows: seq<Row>)
    ensures booked && moved
    ensures |rows| == 2 && rows[0].doctorId == rows[1].doctorId && rows[0].time == rows[1].time
    ensures !NoDoubleBooking(rows)
  {
    var store := new DAO.Store();
    var first := new DAO.Appointment(0, 1, 7, 930, None, None);
    var outcome1 := BookAppointment(store, first, DoctorAvailable, NoFault);
    var second := new DAO.Appointment(0, 2, 7, 970, None, None);
    var outcome2 := BookAppointment(store, second, DoctorAvailable, NoFault);
    booked := outcome1.Pass? && outcome2.Pass?;
    moved := store.RescheduleAppointment(second.id, 930, DAO.NoFault);
    rows := store.rows;
    assert Clash(rows[0], rows[1]);
  }

  // ---------------------------------------------------------------------------------------------
  // The service's transactions

  /**
    bookAppointment: defaults a null or blank status to BOOKED before anything else, then in one
    transaction asks isDoctorAvailable about the appointment's doctor and time; if the slot is taken
    it rolls back and fails with the conflict message, otherwise it inserts the row and commits.
    Any exception rolls back, so the table either gains exactly the one row or is left as it was.
    The insert's result is not looked at: an insert that reports failure instead of throwing is
    followed by a commit and a normal return, with no row added.
   */
  method BookAppointment(store: DAO.Store, appointment: DAO.Appointment,
                         isDoctorAvailable: (seq<Row>, int, int) -> bool, fault: TxFault)
    returns (outcome: Outcome<ServiceError>)
    requires store.Valid() && store.savepoint.None?
    modifies store, appointment
    ensures store.Valid() && store.savepoint.None?
    ensures appointment.status == Some(DAO.StatusOrDefault(old(appointment.status)))
    ensures appointment.patientId == old(appointment.patientId) && appointment.doctorId == old(appointment.doctorId)
    ensures appointment.time == old(appointment.time) && appointment.notes == old(appointment.notes)
    ensures outcome.Pass? <==>
      && (fault == NoFault || fault == WriteReportsFailure)
      && isDoctorAvailable(old(store.rows), appointment.doctorId, appointment.time)
    ensures outcome == Fail(SchedulingConflict(ConflictMessage)) <==>
      fault != ConnectFails && !isDoctorAvailable(old(store.rows), appointment.doctorId, appointment.time)
    ensures outcome.Pass? && fault == NoFault ==>
      && store.rows == old(store.rows) + [Row(old(store.nextId), appointment.patientId, appointment.doctorId,
                                              appointment.time, StatusOf(appointment.status.value), appointment.notes)]
      && store.nextId == old(store.nextId) + 1
      && appointment.id == old(store.nextId)
    ensures outcome.Fail? || fault != NoFault ==> store.rows == old(store.rows) && store.nextId == old(store.nextId)
    ensures fault == WriteReportsFailure ==> appointment.id == old(appointment.id)
    ensures (forall rows, d, t :: isDoctorAvailable(rows, d, t) ==> DoctorAvailable(rows, d, t)) ==>
      NoDoubleBooking(old(store.rows)) ==> NoDoubleBooking(store.rows)
  {
    if appointment.status.None? || IsBlank(appointment.status.value) {
      appointment.status := Some(BookedText);
    }
    if fault == ConnectFails {
      return Fail(PersistenceFailure);
    }
    store.Begin();
    var available := isDoctorAvailable(store.rows, appointment.doctorId, appointment.time);
    if !available {
      store.Rollback();
      return Fail(SchedulingConflict(ConflictMessage));
    }
    if fault == StatementFails {
      store.Rollback();
      return Fail(PersistenceFailure);
    }
    if fault == WriteReportsFailure {
      store.Commit();
      return Pass;
    }
    ghost var before := store.rows;
    var id := store.InsertRow(appointment.patientId, appointment.doctorId, appointment.time,
                              StatusOf(appointment.status.value), appointment.notes);
    appointment.id := id;
    if fault == CommitFails {
      store.Rollback();
      return Fail(PersistenceFailure);
    }
    store.Commit();
    if (forall rows, d, t :: isDoctorAvailable(rows, d, t) ==> DoctorAvailable(rows, d, t)) && NoDoubleBooking(before) {
      BookingKeepsSchedule(before, store.rows[|before|]);
      assert store.rows == before + [store.rows[|before|]];
    }
    outcome := Pass;
  }

  /**
    The body shared by markAppointmentCompleted and cancelAppointment: in one transaction set the
    status of the row with this key; true iff a row matched and the transaction committed, and on
    any failure false with the table as it was.
   */
  method SetStatusInTransaction(store: DAO.Store, appointmentId: int, st: Status, fault: TxFault)
    returns (ok: bool)
    requires store.Valid() && store.savepoint.None?
    modifies store
    ensures store.Valid() && store.savepoint.None? && store.nextId == old(store.nextId)
    ensures ok <==> fault == NoFault && HasId(old(store.rows), appointmentId)
    ensures store.rows == if fault == NoFault then WithStatus(old(store.rows), appointmentId, st) else old(store.rows)
  {
    if fault == ConnectFails {
      return false;
    }
    store.Begin();
    if fault == StatementFails {
      store.Rollback();
      return false;
    }
    if fault == WriteReportsFailure {
      store.Commit();
      return false;
    }
    var matched := store.SetStatusWhere(appointmentId, st);
    if fault == CommitFails {
      store.Rollback();
      return false;
    }
    store.Commit();
    ok := matched;
  }

  /**
    markAppointmentCompleted: only the row with this key becomes COMPLETED, whatever its status was;
    the result says whether a row matched. No double booking can arise from it.
   */
  method MarkAppointmentCompleted(store: DAO.Store, appointmentId: int, fault: TxFault) returns (ok: bool)
    requires store.Valid() && store.savepoint.None?
    modifies store
    ensures store.Valid() && store.savepoint.None? && store.nextId == old(store.nextId)
    ensures ok <==> fault == NoFault && HasId(old(store.rows), appointmentId)
    ensures store.rows == if fault == NoFault then WithStatus(old(store.rows), appointmentId, Completed) else old(store.rows)
    ensures NoDoubleBooking(old(store.rows)) ==> NoDoubleBooking(store.rows)
  {
    ok := SetStatusInTransaction(store, appointmentId, Completed, fault);
    if NoDoubleBooking(old(store.rows)) {
      StatusChangeKeepsSchedule(old(store.rows), appointmentId, Completed);
    }
  }

  /**
    cancelAppointment: the row with this key becomes CANCELLED, as updateStatus(id, "CANCELLED") does;
    the result says whether a row matched. No double booking can arise from it.
   */
  method CancelAppointment(store: DAO.Store, appointmentId: int, fault: TxFault) returns (ok: bool)
    requires store.Valid() && store.savepoint.None?
    modifies store
    ensures store.Valid() && store.savepoint.None? && store.nextId == old(store.nextId)
    ensures ok <==> fault == NoFault && HasId(old(store.rows), appointmentId)
    ensures store.rows == if fault == NoFault then WithStatus(old(store.rows), appointmentId, Cancelled) else old(store.rows)
    ensures NoDoubleBooking(old(store.rows)) ==> NoDoubleBooking(store.rows)
  {
    ok := SetStatusInTransaction(store, appointmentId, Cancelled, fault);
    if NoDoubleBooking(old(store.rows)) {
      StatusChangeKeepsSchedule(old(store.rows), appointmentId, Cancelled);
    }
  }

  /**
    A reschedule that keeps the intended availability rule: in one transaction look up the appointment's doctor,
    check the new time against that doctor's other BOOKED appointments, and only then move it and
    reset it to BOOKED. A missing key is Success(false); a taken slot is a conflict; any failure
    leaves the table as it was.
   */
  method RescheduleAppointment(store: DAO.Store, appointmentId: int, newTime: int, fault: TxFault)
    returns (result: Result<bool, ServiceError>)
    requires store.Valid() && store.savepoint.None?
    modifies store
    ensures store.Valid() && store.savepoint.None? && store.nextId == old(store.nextId)
    ensures result == Success(false) <==> fault != ConnectFails && !HasId(old(store.rows), appointmentId)
    ensures result == Success(true) <==>
      && fault == NoFault
      && exists k :: 0 <= k < |old(store.rows)| && old(store.rows)[k].id == appointmentId
                     && AvailableExcept(old(store.rows), old(store.rows)[k].doctorId, newTime, appointmentId)
    ensures result == Failure(SchedulingConflict(ConflictMessage)) <==>
      && fault != ConnectFails
      && exists k :: 0 <= k < |old(store.rows)| && old(store.rows)[k].id == appointmentId
                     && !AvailableExcept(old(store.rows), old(store.rows)[k].doctorId, newTime, appointmentId)
    ensures store.rows == if result == Success(true) then WithSchedule(old(store.rows), appointmentId, newTime) else old(store.rows)
    ensures NoDoubleBooking(old(store.rows)) ==> NoDoubleBooking(store.rows)
  {
    if fault == ConnectFails {
      return Failure(PersistenceFailure);
    }
    store.Begin();
    var found := Lookup(store.rows, appointmentId);
    if found.None? {
      store.Rollback();
      return Success(false);
    }
    ghost var before := store.rows;
    ghost var k :| 0 <= k < |before| && before[k] == found.value;
    if !AvailableExcept(store.rows, found.value.doctorId, newTime, appointmentId) {
      store.Rollback();
      return Failure(SchedulingConflict(ConflictMessage));
    }
    if fault == StatementFails || fault == WriteReportsFailure {
      store.Rollback();
      return Failure(PersistenceFailure);
    }
    var matched := store.SetScheduleWhere(appointmentId, newTime);
    if fault == CommitFails {
      store.Rollback();
      return Failure(PersistenceFailure);
    }
    store.Commit();
    if NoDoubleBooking(before) {
      RescheduleKeepsSchedule(before, old(store.nextId), k, newTime);
    }
    result := Success(true);
  }

  // ---------------------------------------------------------------------------------------------
  // The listings, passed through unchanged

  /** getAppointmentsForPatient: the data access layer's listing, latest first. */
  method GetAppointmentsForPatient(store: DAO.Store, patientId: int, failAfter: Option<nat>)
    returns (list: seq<Row>)
    requires store.Valid()
    ensures Ordered(list, Descending)
    ensures |list| == DAO.RowsRead(|Select(store.rows, PatientColumn, patientId)|, failAfter)
    ensures multiset(list) <= multiset(Select(store.rows, PatientColumn, patientId))
    ensures failAfter.None? ==> multiset(list) == multiset(Select(store.rows, PatientColumn, patientId))
    ensures |list| > 0 ==>
      forall x :: x in multiset(Select(store.rows, PatientColumn, patientId)) - multiset(list) ==> InOrder(list[|list| - 1], x, Descending)
    ensures forall x :: x in list ==> x in store.rows && x.patientId == patientId
    ensures failAfter.None? ==> forall x :: x in store.rows && x.patientId == patientId ==> x in list
  {
    list := store.GetAppointmentsForPatient(patientId, failAfter);
  }

  /** getAppointmentsForDoctor: the data access layer's listing, earliest first. */
  method GetAppointmentsForDoctor(store: DAO.Store, doctorId: int, failAfter: Option<nat>)
    returns (list: seq<Row>)
    requires store.Valid()
    ensures Ordered(list, Ascending)
    ensures |list| == DAO.RowsRead(|Select(store.rows, DoctorColumn, doctorId)|, failAfter)
    ensures multiset(list) <= multiset(Select(store.rows, DoctorColumn, doctorId))
    ensures failAfter.None? ==> multiset(list) == multiset(Select(store.rows, DoctorColumn, doctorId))
    ensures |list| > 0 ==>
      forall x :: x in multiset(Select(store.rows, DoctorColumn, doctorId)) - multiset(list) ==> InOrder(list[|list| - 1], x, Ascending)
    ensures forall x :: x in list ==> x in store.rows && x.doctorId == doctorId
    ensures failAfter.None? ==> forall x :: x in store.rows && x.doctorId == doctorId ==> x in list
  {
    list := store.GetAppointmentsForDoctor(doctorId, failAfter);
  }
}
