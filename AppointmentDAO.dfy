/**
  AppointmentDAO: the appointments table and the statements the data access layer runs on it.
  The table is a Store object; Appointment is the mutable carrier the callers hand in.
  Every DAO method opens its own auto-commit connection; where a JDBC call throws
  SQLException is a parameter (Fault, or failAfter for the listings).
 */
module AppointmentDAO {
  import opened Wrappers
  import opened JavaString
  import opened Appointments

  /** The Appointment model object: getters and setters over these fields. */
  class Appointment {
    var id: int
    var patientId: int
    var doctorId: int
    var time: int
    var status: JString
    var notes: JString

    constructor (id: int, patientId: int, doctorId: int, time: int, status: JString, notes: JString)
      ensures this.id == id && this.patientId == patientId && this.doctorId == doctorId
      ensures this.time == time && this.status == status && this.notes == notes
    {
      this.id, this.patientId, this.doctorId := id, patientId, doctorId;
      this.time, this.status, this.notes := time, status, notes;
    }
  }

  /** The status a booking stores: a null or blank status becomes BOOKED, any other is kept as given. */
  function StatusOrDefault(status: JString): (s: string)
    ensures !IsBlank(s)
    ensures status.Some? && !IsBlank(status.value) ==> s == status.value
    ensures status.None? || IsBlank(status.value) ==> StatusOf(s) == Booked
  {
    if status.None? || IsBlank(status.value) then
      assert !IsWhitespace(BookedText[0]);
      BookedText
    else status.value
  }

  /** Where an auto-commit statement throws SQLException, if it does. */
  datatype Fault =
    | NoFault
      /** getConnection, prepareStatement or executeUpdate throws: nothing is written. */
    | FailsBeforeUpdate
      /** executeUpdate has run, then reading the generated key or closing throws: the write stays. */
    | FailsAfterUpdate

  /** The state of the table when a transaction began. */
  datatype Snapshot = Snapshot(rows: seq<Row>, nextId: int)

  /** The appointments table with its auto-increment counter and the transaction open on it, if any. */
  class Store {
    var rows: seq<Row>
    var nextId: int
    var savepoint: Option<Snapshot>

    predicate Valid()
      reads this
    {
      && Consistent(rows, nextId)
      && (savepoint.Some? ==> Consistent(savepoint.value.rows, savepoint.value.nextId))
    }

    constructor ()
      ensures Valid() && rows == [] && nextId == 1 && savepoint == None
    {
      rows, nextId, savepoint := [], 1, None;
    }

    /** INSERT INTO appointments with a generated key: the new row gets the next key and goes last. */
    method InsertRow(patientId: int, doctorId: int, time: int, status: Status, notes: JString) returns (id: int)
      requires Valid()
      modifies this
      ensures Valid() && savepoint == old(savepoint)
      ensures id == old(nextId) && nextId == old(nextId) + 1
      ensures rows == old(rows) + [Row(id, patientId, doctorId, time, status, notes)]
    {
      id := nextId;
      rows := rows + [Row(id, patientId, doctorId, time, status, notes)];
      nextId := nextId + 1;
    }

    /** setAutoCommit(false): remember the state to roll back to. */
    method Begin()
      requires Valid() && savepoint.None?
      modifies this
      ensures Valid() && savepoint == Some(Snapshot(rows, nextId))
      ensures rows == old(rows) && nextId == old(nextId)
    {
      savepoint := Some(Snapshot(rows, nextId));
    }

    /** commit: keep everything written since Begin. */
    method Commit()
      requires Valid() && savepoint.Some?
      modifies this
      ensures Valid() && savepoint.None?
      ensures rows == old(rows) && nextId == old(nextId)
    {
      savepoint := None;
    }

    /** rollback: return to the state at Begin. */
    method Rollback()
      requires Valid() && savepoint.Some?
      modifies this
      ensures Valid() && savepoint.None?
      ensures rows == old(savepoint.value.rows) && nextId == old(savepoint.value.nextId)
    {
      rows, nextId := savepoint.value.rows, savepoint.value.nextId;
      savepoint := None;
    }

    /**
      bookAppointment: false for null; otherwise defaults the status, inserts one row carrying the
      appointment's columns, stores the generated key in the appointment and returns true.
      A failure before the insert leaves the table alone; one after it keeps the row and returns false.
     */
    method BookAppointment(appointment: Appointment?, fault: Fault) returns (ok: bool)
      requires Valid() && savepoint.None?
      modifies this, appointment
      ensures Valid() && savepoint.None?
      ensures appointment == null ==> !ok && rows == old(rows) && nextId == old(nextId)
      ensures appointment != null ==>
        && appointment.status == Some(StatusOrDefault(old(appointment.status)))
        && appointment.patientId == old(appointment.patientId)
        && appointment.doctorId == old(appointment.doctorId)
        && appointment.time == old(appointment.time)
        && appointment.notes == old(appointment.notes)
        && (ok <==> fault == NoFault)
        && appointment.id == (if ok then old(nextId) else old(appointment.id))
        && (fault == FailsBeforeUpdate ==> rows == old(rows) && nextId == old(nextId))
        && (fault != FailsBeforeUpdate ==>
              && nextId == old(nextId) + 1
              && rows == old(rows) + [Row(old(nextId), appointment.patientId, appointment.doctorId,
                                          appointment.time, StatusOf(appointment.status.value), appointment.notes)])
    {
      if appointment == null {
        return false;
      }
      if appointment.status.None? || IsBlank(appointment.status.value) {
        appointment.status := Some(BookedText);
      }
      if fault == FailsBeforeUpdate {
        return false;
      }
      var id := InsertRow(appointment.patientId, appointment.doctorId, appointment.time,
                          StatusOf(appointment.status.value), appointment.notes);
      if fault == FailsAfterUpdate {
        return false;
      }
      appointment.id := id;
      ok := true;
    }

    /**
      rescheduleAppointment: sets the time of the row with this key and puts it back to BOOKED,
      without looking at other bookings; true iff a row has the key and nothing failed.
     */
    method RescheduleAppointment(appointmentId: int, newTime: int, fault: Fault) returns (ok: bool)
      requires Valid() && savepoint.None?
      modifies this
      ensures Valid() && savepoint.None? && nextId == old(nextId)
      ensures rows == if fault == FailsBeforeUpdate then old(rows) else WithSchedule(old(rows), appointmentId, newTime)
      ensures ok <==> fault == NoFault && HasId(old(rows), appointmentId)
    {
      if fault == FailsBeforeUpdate {
        return false;
      }
      ok := SetScheduleWhere(appointmentId, newTime);
      ok := ok && fault == NoFault;
    }

    /** The UPDATE ... SET appointment_datetime = ?, status = 'BOOKED' WHERE id = ? statement itself. */
    method SetScheduleWhere(appointmentId: int, newTime: int) returns (matched: bool)
      requires Valid()
      modifies this
      ensures Valid() && savepoint == old(savepoint) && nextId == old(nextId)
      ensures rows == WithSchedule(old(rows), appointmentId, newTime)
      ensures matched <==> HasId(old(rows), appointmentId)
    {
      UpdateTouchesOneRow(rows, nextId, appointmentId, SetSchedule(newTime));
      matched := HasId(rows, appointmentId);
      rows := WithSchedule(rows, appointmentId, newTime);
    }

    /**
      updateStatus: sets the status of the row with this key to any text; true iff a row has the key
      and nothing failed. A missing key changes nothing.
     */
    method UpdateStatus(appointmentId: int, newStatus: string, fault: Fault) returns (ok: bool)
      requires Valid() && savepoint == None
      modifies this
      ensures Valid() && savepoint == None && nextId == old(nextId)
      ensures rows == if fault == FailsBeforeUpdate then old(rows) else WithStatus(old(rows), appointmentId, StatusOf(newStatus))
      ensures ok <==> fault == NoFault && HasId(old(rows), appointmentId)
    {
      if fault == FailsBeforeUpdate {
        return false;
      }
      ok := SetStatusWhere(appointmentId, StatusOf(newStatus));
      ok := ok && fault == NoFault;
    }

    /** The UPDATE ... SET status = ? WHERE id = ? statement itself, inside or outside a transaction. */
    method SetStatusWhere(appointmentId: int, st: Status) returns (matched: bool)
      requires Valid()
      modifies this
      ensures Valid() && savepoint == old(savepoint) && nextId == old(nextId)
      ensures rows == WithStatus(old(rows), appointmentId, st)
      ensures matched <==> HasId(old(rows), appointmentId)
    {
      UpdateTouchesOneRow(rows, nextId, appointmentId, SetStatus(st));
      matched := HasId(rows, appointmentId);
      rows := WithStatus(rows, appointmentId, st);
    }

    /**
      getAppointmentsForPatient: the patient's appointments, latest first; rows with equal times
      may come in any order. A failure after k rows were read returns k rows, none read later
      than any row left out (none when the connection or query fails); the table is not changed.
     */
    method GetAppointmentsForPatient(patientId: int, failAfter: Option<nat>) returns (list: seq<Row>)
      requires Valid()
      ensures Ordered(list, Descending)
      ensures |list| == RowsRead(|Select(rows, PatientColumn, patientId)|, failAfter)
      ensures multiset(list) <= multiset(Select(rows, PatientColumn, patientId))
      ensures failAfter.None? ==> multiset(list) == multiset(Select(rows, PatientColumn, patientId))
      ensures |list| > 0 ==>
        forall x :: x in multiset(Select(rows, PatientColumn, patientId)) - multiset(list) ==> InOrder(list[|list| - 1], x, Descending)
      ensures forall x :: x in list ==> x in rows && x.patientId == patientId
      ensures failAfter.None? ==> forall x :: x in rows && x.patientId == patientId ==> x in list
    {
      var resultSet := Query(rows, PatientColumn, patientId, Descending);
      list := ReadResultSet(resultSet, failAfter);
      ReadPrefix(resultSet, Select(rows, PatientColumn, patientId), |list|, Descending);
    }

    /**
      getAppointmentsForDoctor: the doctor's appointments, earliest first; rows with equal times
      may come in any order. A failure after k rows were read returns k rows, none read later
      than any row left out (none when the connection or query fails); the table is not changed.
     */
    method GetAppointmentsForDoctor(doctorId: int, failAfter: Option<nat>) returns (list: seq<Row>)
      requires Valid()
      ensures Ordered(list, Ascending)
      ensures |list| == RowsRead(|Select(rows, DoctorColumn, doctorId)|, failAfter)
      ensures multiset(list) <= multiset(Select(rows, DoctorColumn, doctorId))
      ensures failAfter.None? ==> multiset(list) == multiset(Select(rows, DoctorColumn, doctorId))
      ensures |list| > 0 ==>
        forall x :: x in multiset(Select(rows, DoctorColumn, doctorId)) - multiset(list) ==> InOrder(list[|list| - 1], x, Ascending)
      ensures forall x :: x in list ==> x in rows && x.doctorId == doctorId
      ensures failAfter.None? ==> forall x :: x in rows && x.doctorId == doctorId ==> x in list
    {
      var resultSet := Query(rows, DoctorColumn, doctorId, Ascending);
      list := ReadResultSet(resultSet, failAfter);
      ReadPrefix(resultSet, Select(rows, DoctorColumn, doctorId), |list|, Ascending);
    }
  }

  /** How many of n result rows reach the list when reading fails after k of them, if it fails. */
  function RowsRead(n: nat, failAfter: Option<nat>): nat {
    match failAfter
    case None => n
    case Some(k) => if k < n then k else n
  }

  /**
    The while (rs.next()) loop of both listings: appends the mapped rows in result-set order
    until the set is exhausted or reading throws.
   */
  method ReadResultSet(resultSet: seq<Row>, failAfter: Option<nat>) returns (list: seq<Row>)
    ensures list == resultSet[..RowsRead(|resultSet|, failAfter)]
  {
    list := [];
    var i := 0;
    while i < |resultSet| && (failAfter.None? || i < failAfter.value)
      invariant i <= |resultSet| && (failAfter.Some? ==> i <= failAfter.value)
      invariant list == resultSet[..i]
    {
      list := list + [resultSet[i]];
      i := i + 1;
    }
  }
}
