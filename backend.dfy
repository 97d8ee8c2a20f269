/** The hosted `appointments` table, reduced to what the pages rely on: rows kept in insertion
    order, fresh ids handed out by the store, inserts that the store may refuse, and an update
    that sets the status of the rows with a given id. */
module Backend {
  import opened Wrappers
  import opened Appointments

  /** The store's answer to an insert: accepted, or refused with a Postgres error code
      ("23505" for a uniqueness violation) and a message. Which one comes back is decided by
      the store's constraints, which the pages do not see. */
  datatype Verdict = Accept | Reject(code: string, message: string)

  /** What the insert call returns to the page: the stored row, or the error. */
  datatype InsertResult = Inserted(row: Appointment) | Failed(code: string, message: string)

  /** The error code of a uniqueness violation. */
  const UniqueViolation := "23505"

  class Table {
    var rows: seq<Appointment>
    var nextId: nat

    /** Every row has its own id, below the next one to be handed out. */
    ghost predicate Valid()
      reads this
    {
      (forall i :: 0 <= i < |rows| ==> rows[i].id < nextId) &&
      (forall i, j :: 0 <= i < j < |rows| ==> rows[i].id != rows[j].id)
    }

    constructor ()
      ensures Valid() && rows == [] && nextId == 0
    {
      rows := [];
      nextId := 0;
    }

    /** `insert(row).select().single()`: on acceptance the row is stored under a fresh id and
        returned; on refusal nothing is stored. */
    method Insert(row: Appointment, verdict: Verdict) returns (result: InsertResult)
      requires Valid()
      modifies this
      ensures Valid()
      ensures verdict.Accept? ==>
                result == Inserted(row.(id := old(nextId))) &&
                rows == old(rows) + [result.row] && nextId == old(nextId) + 1
      ensures verdict.Reject? ==>
                result == Failed(verdict.code, verdict.message) &&
                rows == old(rows) && nextId == old(nextId)
    {
      match verdict
      case Accept =>
        var stored := row.(id := nextId);
        rows := rows + [stored];
        nextId := nextId + 1;
        result := Inserted(stored);
      case Reject(code, message) =>
        result := Failed(code, message);
    }

    /** `update({status: 'cancelled'}).eq('id', id)`: an accepted update sets the status of
        the rows with that id and adds or removes no row; a refused one changes nothing. The
        answer is the error, if any. */
    method Cancel(id: nat, verdict: Verdict) returns (error: Option<string>)
      requires Valid()
      modifies this`rows
      ensures Valid()
      ensures verdict.Accept? ==> error == None && rows == CancelRows(old(rows), id)
      ensures verdict.Reject? ==> error == Some(verdict.message) && rows == old(rows)
    {
      if verdict.Accept? {
        rows := CancelRows(rows, id);
        error := None;
      } else {
        error := Some(verdict.message);
      }
    }
  }
}
