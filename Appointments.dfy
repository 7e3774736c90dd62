/**
  The appointments table as values: the status column, a row, the two UPDATE statements the
  data access layer issues, and the two SELECT ... ORDER BY queries behind the listings.
  Times are whole minutes on one clock, with no time zone.
 */
module Appointments {
  import opened Wrappers

  /** The status column. The data access layer accepts any text, so anything else is Other. */
  datatype Status = Booked | Completed | Cancelled | Other(text: string)

  const BookedText: string := "BOOKED"
  const CompletedText: string := "COMPLETED"
  const CancelledText: string := "CANCELLED"

  /** The status a stored text stands for; the comparison is exact, as SQL string equality on the column is assumed to be. */
  function StatusOf(s: string): Status {
    if s == BookedText then Booked
    else if s == CompletedText then Completed
    else if s == CancelledText then Cancelled
    else Other(s)
  }

  /** The text stored for a status. */
  function Text(st: Status): string {
    match st
    case Booked => BookedText
    case Completed => CompletedText
    case Cancelled => CancelledText
    case Other(s) => s
  }

  /** A status as StatusOf produces it: Other never carries one of the three known names. */
  predicate Canonical(st: Status) {
    st.Other? ==> st.text != BookedText && st.text != CompletedText && st.text != CancelledText
  }

  /** Reading a stored text gives back that text, and every canonical status survives the round trip. */
  lemma StatusRoundTrip(s: string, st: Status)
    ensures Text(StatusOf(s)) == s && Canonical(StatusOf(s))
    ensures Canonical(st) ==> StatusOf(Text(st)) == st
  {
  }

  /**
    One row of the appointments table. mapRowToAppointment copies every column into a fresh
    Appointment, so the elements of a listing are rows as well.
   */
  datatype Row = Row(id: int, patientId: int, doctorId: int, time: int, status: Status, notes: Option<string>)

  /** The generated keys are handed out in increasing order, so table order is key order. */
  predicate IdsIncreasing(rows: seq<Row>) {
    forall i, j :: 0 <= i < j < |rows| ==> rows[i].id < rows[j].id
  }

  /** The table's invariant: keys start at 1, increase, and lie below the next key to be generated. */
  predicate Consistent(rows: seq<Row>, nextId: int) {
    && 1 <= nextId
    && IdsIncreasing(rows)
    && forall i :: 0 <= i < |rows| ==> 1 <= rows[i].id < nextId
  }

  /** Whether some row has key id: what "executeUpdate() > 0" reports for an UPDATE ... WHERE id = ?. */
  predicate HasId(rows: seq<Row>, id: int) {
    exists i :: 0 <= i < |rows| && rows[i].id == id
  }

  /** SELECT * FROM appointments WHERE id = ?: the row with key id, if there is one. */
  function Lookup(rows: seq<Row>, id: int): (r: Option<Row>)
    ensures r.Some? ==> r.value in rows && r.value.id == id
    ensures r.None? <==> !HasId(rows, id)
  {
    if rows == [] then None
    else if rows[0].id == id then Some(rows[0])
    else
      var rest := Lookup(rows[1..], id);
      assert HasId(rows, id) ==> HasId(rows[1..], id) by {
        if HasId(rows, id) {
          var i :| 0 <= i < |rows| && rows[i].id == id;
          assert rows[1..][i - 1].id == id;
        }
      }
      rest
  }

  /** UPDATE ... WHERE id = ?: every row with key id is replaced by change of it. */
  function UpdateWhereId(rows: seq<Row>, id: int, change: Row -> Row): seq<Row> {
    seq(|rows|, i requires 0 <= i < |rows| => if rows[i].id == id then change(rows[i]) else rows[i])
  }

  /** SET status = ? */
  function SetStatus(st: Status): Row -> Row {
    (r: Row) => r.(status := st)
  }

  /** SET appointment_datetime = ?, status = 'BOOKED' */
  function SetSchedule(time: int): Row -> Row {
    (r: Row) => r.(time := time, status := Booked)
  }

  /** UPDATE appointments SET status = ? WHERE id = ? */
  function WithStatus(rows: seq<Row>, id: int, st: Status): seq<Row> {
    UpdateWhereId(rows, id, SetStatus(st))
  }

  /** UPDATE appointments SET appointment_datetime = ?, status = 'BOOKED' WHERE id = ? */
  function WithSchedule(rows: seq<Row>, id: int, time: int): seq<Row> {
    UpdateWhereId(rows, id, SetSchedule(time))
  }

  /**
    Keys are unique, so an update by key touches exactly the one row with that key when there is
    one and nothing otherwise; it keeps every key, so the table stays consistent.
   */
  lemma {:induction false} UpdateTouchesOneRow(rows: seq<Row>, nextId: int, id: int, change: Row -> Row)
    requires Consistent(rows, nextId)
    requires forall r :: change(r).id == r.id
    ensures Consistent(UpdateWhereId(rows, id, change), nextId)
    ensures !HasId(rows, id) ==> UpdateWhereId(rows, id, change) == rows
    ensures HasId(rows, id) ==>
      exists i :: 0 <= i < |rows| && rows[i].id == id && UpdateWhereId(rows, id, change) == rows[i := change(rows[i])]
  {
    var updated := UpdateWhereId(rows, id, change);
    if HasId(rows, id) {
      var i :| 0 <= i < |rows| && rows[i].id == id;
      forall j | 0 <= j < |rows| && j != i
        ensures updated[j] == rows[j]
      {
        assert rows[j].id != id by {
          if j < i { assert rows[j].id < rows[i].id; } else { assert rows[i].id < rows[j].id; }
        }
      }
      assert updated == rows[i := change(rows[i])];
    }
  }

  /** The two columns a listing filters on. */
  datatype Column = PatientColumn | DoctorColumn

  function ColumnValue(r: Row, c: Column): int {
    match c
    case PatientColumn => r.patientId
    case DoctorColumn => r.doctorId
  }

  /** SELECT * FROM appointments WHERE column = v, in table order. */
  function Select(rows: seq<Row>, c: Column, v: int): (r: seq<Row>)
    ensures forall x :: multiset(r)[x] == if ColumnValue(x, c) == v then multiset(rows)[x] else 0
    ensures forall x :: x in r <==> x in rows && ColumnValue(x, c) == v
  {
    if rows == [] then []
    else
      assert rows == [rows[0]] + rows[1..];
      var r := (if ColumnValue(rows[0], c) == v then [rows[0]] else []) + Select(rows[1..], c, v);
      assert forall x :: x in r <==> x in multiset(r);
      r
  }

  /** ORDER BY appointment_datetime ASC or DESC. */
  datatype Direction = Ascending | Descending

  predicate InOrder(a: Row, b: Row, d: Direction) {
    match d
    case Ascending => a.time <= b.time
    case Descending => a.time >= b.time
  }

  predicate Ordered(s: seq<Row>, d: Direction) {
    forall i, j :: 0 <= i < j < |s| ==> InOrder(s[i], s[j], d)
  }

  /** Places x into an ordered sequence. */
  function InsertByTime(x: Row, s: seq<Row>, d: Direction): (r: seq<Row>)
    requires Ordered(s, d)
    ensures Ordered(r, d) && multiset(r) == multiset(s) + multiset{x}
  {
    if s == [] then [x]
    else if InOrder(x, s[0], d) then [x] + s
    else
      var rest := InsertByTime(x, s[1..], d);
      assert s == [s[0]] + s[1..];
      assert forall k :: 0 <= k < |rest| ==> InOrder(s[0], rest[k], d) by {
        forall k | 0 <= k < |rest|
          ensures InOrder(s[0], rest[k], d)
        {
          assert rest[k] in multiset(rest);
          if rest[k] != x {
            assert rest[k] in s[1..];
          }
        }
      }
      [s[0]] + rest
  }

  /** The database's sort for ORDER BY on the time column (SQL leaves the order of equal times open; this one keeps table order). */
  function SortByTime(s: seq<Row>, d: Direction): (r: seq<Row>)
    ensures Ordered(r, d) && multiset(r) == multiset(s)
  {
    if s == [] then []
    else
      assert s == [s[0]] + s[1..];
      InsertByTime(s[0], SortByTime(s[1..], d), d)
  }

  /**
    The result set of SELECT * FROM appointments WHERE column = v ORDER BY appointment_datetime:
    every row with that column value, each as often as it is stored, and no other, in time order.
   */
  function Query(rows: seq<Row>, c: Column, v: int, d: Direction): (r: seq<Row>)
    ensures Ordered(r, d) && multiset(r) == multiset(Select(rows, c, v))
    ensures forall x :: multiset(r)[x] == if ColumnValue(x, c) == v then multiset(rows)[x] else 0
    ensures forall x :: x in r <==> x in rows && ColumnValue(x, c) == v
  {
    var r := SortByTime(Select(rows, c, v), d);
    assert forall x :: x in r <==> x in multiset(r);
    r
  }

  /**
    Reading stops after m rows of a result set q, which holds the rows of selected in order:
    the rows read are among selected, every row not read comes no earlier than the last one read,
    and reading to the end gets all of them.
   */
  lemma {:induction false} ReadPrefix(q: seq<Row>, selected: seq<Row>, m: nat, d: Direction)
    requires Ordered(q, d) && multiset(q) == multiset(selected) && m <= |q|
    ensures |q| == |selected|
    ensures Ordered(q[..m], d)
    ensures multiset(q[..m]) <= multiset(selected)
    ensures forall x :: x in q[..m] ==> x in selected
    ensures m > 0 ==> forall x :: x in multiset(selected) - multiset(q[..m]) ==> InOrder(q[m - 1], x, d)
    ensures m == |q| ==> multiset(q[..m]) == multiset(selected) && forall x :: x in selected ==> x in q[..m]
  {
    assert |multiset(q)| == |multiset(selected)|;
    assert q == q[..m] + q[m..];
    assert multiset(q) == multiset(q[..m]) + multiset(q[m..]);
    assert multiset(selected) - multiset(q[..m]) == multiset(q[m..]);
    forall x | x in q[..m]
      ensures x in selected
    {
      assert x in multiset(q[..m]);
      assert x in multiset(selected);
    }
    if m > 0 {
      forall x | x in multiset(q[m..])
        ensures InOrder(q[m - 1], x, d)
      {
        var j :| 0 <= j < |q[m..]| && q[m..][j] == x;
        assert q[m + j] == x;
      }
    }
    if m == |q| {
      assert q[..m] == q;
      forall x | x in selected
        ensures x in q
      {
        assert x in multiset(selected);
      }
    }
  }
}
