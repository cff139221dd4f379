/** An in-memory stand-in for the two backend tables the pages talk to. The
    pages call it where they call the database client; a backend failure is
    an argument (`failure`: the error message the client would return). The
    backend assigns ids and timestamps itself, so those are arguments too. */
module Store {
  import opened Common

  /** The columns a client supplies when inserting a warranty (the table's
      insert type: a row without id and timestamps). */
  datatype NewRow = NewRow(
    clientId: string,
    number: string,
    kind: string,
    beneficiary: string,
    value: real,
    startDate: string,
    endDate: string,
    description: Option<string>,
    status: Status)

  /** The row the table holds after inserting `n` under the backend-chosen
      `id`, stamped with `now` as both creation and update time. */
  function Stored(n: NewRow, id: string, now: string): (r: Row)
    ensures r.id == id && r.createdAt == now && r.updatedAt == now
    ensures r.clientId == n.clientId && r.number == n.number && r.status == n.status
    ensures r.kind == n.kind && r.beneficiary == n.beneficiary && r.value == n.value
    ensures r.startDate == n.startDate && r.endDate == n.endDate && r.description == n.description
  {
    Row(id, n.clientId, n.number, n.beneficiary, n.value, n.startDate, n.endDate,
        n.status, n.kind, n.description, now, now)
  }

  /** `update({ status }).eq('id', id)` on a list of rows: the rows with that
      id get the new status; every other row, and every other column, stays. */
  function SetStatus(rows: seq<Row>, id: string, s: Status): (r: seq<Row>)
    ensures |r| == |rows|
    ensures forall i | 0 <= i < |rows| :: r[i].(status := rows[i].status) == rows[i]
    ensures forall i | 0 <= i < |rows| :: r[i].status == if rows[i].id == id then s else rows[i].status
  {
    seq(|rows|, i requires 0 <= i < |rows| => if rows[i].id == id then rows[i].(status := s) else rows[i])
  }

  /** An id no row carries leaves the table as it was. */
  lemma SetStatusUnknownId(rows: seq<Row>, id: string, s: Status)
    requires forall i | 0 <= i < |rows| :: rows[i].id != id
    ensures SetStatus(rows, id, s) == rows
  {
  }

  /** Setting a status a second time changes nothing more. */
  lemma SetStatusIdempotent(rows: seq<Row>, id: string, s: Status)
    ensures SetStatus(SetStatus(rows, id, s), id, s) == SetStatus(rows, id, s)
  {
  }

  /** Setting the status a row already has leaves the table as it was. */
  lemma SetStatusToCurrent(rows: seq<Row>, i: nat, s: Status)
    requires i < |rows| && rows[i].status == s
    requires forall j | 0 <= j < |rows| && j != i :: rows[j].id != rows[i].id
    ensures SetStatus(rows, rows[i].id, s) == rows
  {
    var r := SetStatus(rows, rows[i].id, s);
    assert rows[i].(status := s) == rows[i];
    assert forall j | 0 <= j < |rows| :: r[j] == rows[j];
  }

  /** Any status can be reached from any other: the update puts no guard on
      the current status. */
  lemma SetStatusUnguarded(rows: seq<Row>, i: nat, s: Status)
    requires i < |rows|
    ensures SetStatus(rows, rows[i].id, s)[i].status == s
  {
  }

  /** The warranty numbers of a table. */
  function Numbers(rows: seq<Row>): (ns: seq<string>)
    ensures |ns| == |rows|
    ensures forall i | 0 <= i < |rows| :: ns[i] == rows[i].number
  {
    seq(|rows|, i requires 0 <= i < |rows| => rows[i].number)
  }

  /** A status update never touches a warranty number. */
  lemma SetStatusKeepsNumbers(rows: seq<Row>, id: string, s: Status)
    ensures Numbers(SetStatus(rows, id, s)) == Numbers(rows)
  {
  }

  /** The `profiles(full_name, email, company_name)` embed of the admin
      select: each row with its owner's profile, in table order. */
  function Join(rows: seq<Row>, profiles: map<string, ProfileSummary>): (ws: seq<Warranty>)
    ensures |ws| == |rows|
    ensures forall i | 0 <= i < |rows| :: ws[i].row == rows[i]
    ensures forall i | 0 <= i < |rows| ::
      ws[i].profiles == if rows[i].clientId in profiles then Some(profiles[rows[i].clientId]) else None
  {
    seq(|rows|, i requires 0 <= i < |rows| =>
      Warranty(rows[i], if rows[i].clientId in profiles then Some(profiles[rows[i].clientId]) else None))
  }

  /** Some row of `rows` carries the id `id`. */
  predicate HasId(rows: seq<Row>, id: string) {
    exists i | 0 <= i < |rows| :: rows[i].id == id
  }

  predicate UniqueIds(rows: seq<Row>) {
    forall i, j | 0 <= i < j < |rows| :: rows[i].id != rows[j].id
  }

  /** The message the table's primary key answers a duplicate id with. */
  const DuplicateKey: string := "duplicate key value violates unique constraint"

  class WarrantyStore {
    var rows: seq<Row>
    var profiles: map<string, ProfileSummary>

    /** The primary key: no two rows share an id. */
    ghost predicate Valid()
      reads this
    {
      UniqueIds(rows)
    }

    constructor (profiles: map<string, ProfileSummary>)
      ensures Valid() && rows == [] && this.profiles == profiles
    {
      rows := [];
      this.profiles := profiles;
    }

    /** The admin page's select: every row with its owner's profile. */
    function Select(): (ws: seq<Warranty>)
      reads this
      ensures |ws| == |rows|
    {
      Join(rows, profiles)
    }

    /** `update({ status }).eq('id', id)`: on success the one row with that
        id, if any, has the new status and nothing else changed; on failure
        nothing changed. */
    method UpdateStatus(id: string, s: Status, failure: Option<string>) returns (err: Option<string>)
      requires Valid()
      modifies this
      ensures Valid() && profiles == old(profiles)
      ensures err == failure
      ensures failure.Some? ==> rows == old(rows)
      ensures failure.None? ==> rows == SetStatus(old(rows), id, s)
    {
      err := failure;
      if failure.None? {
        rows := SetStatus(rows, id, s);
      }
    }

    /** `insert(n)`: on success the table gains one row at the end, under
        the backend-chosen id and time stamp; an id already in use or a
        backend failure leaves the table as it was and reports an error. */
    method Insert(n: NewRow, id: string, now: string, failure: Option<string>) returns (err: Option<string>)
      requires Valid()
      modifies this
      ensures Valid() && profiles == old(profiles)
      ensures failure.Some? ==> err == failure && rows == old(rows)
      ensures failure.None? && HasId(old(rows), id) ==>
        err == Some(DuplicateKey) && rows == old(rows)
      ensures failure.None? && !HasId(old(rows), id) ==>
        err == None && rows == old(rows) + [Stored(n, id, now)]
    {
      if failure.Some? {
        err := failure;
      } else if HasId(rows, id) {
        err := Some(DuplicateKey);
      } else {
        rows := rows + [Stored(n, id, now)];
        err := None;
      }
    }
  }
}
