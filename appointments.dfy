/** Rows of the `appointments` table and what both pages derive from them: the taken
    ("occupied") slot strings of a day, the slots still offered, and cancellation as a
    status change. */
module Appointments {
  import opened Wrappers
  import opened Subsequences

  /** An account or business identifier (a profile id). */
  type UserId = string

  datatype Status = Scheduled | Cancelled | Blocked

  /** One row; the columns a page leaves out of its insert are None (SQL null). */
  datatype Appointment = Appointment(
    id: nat,
    barberId: Option<UserId>,       // barber_id: the business booked by the public page
    userId: Option<UserId>,         // user_id: the account booked by the dashboard
    date: string,                   // appointment_date, "YYYY-MM-DD"
    time: string,                   // appointment_time as stored
    clientName: Option<string>,
    clientPhone: Option<string>,
    haircut: string,                // haircut_type
    notes: Option<string>,
    status: Status)

  /** `appointment_time.slice(0, 5)`: the first five characters, or all of a shorter string. */
  function TimePrefix(s: string): (p: string)
    ensures p <= s && |p| == if |s| < 5 then |s| else 5
  {
    if |s| <= 5 then s else s[..5]
  }

  /** Which rows a taken-set query looks at: the public page filters on the business
      (`.eq('barber_id', barber.id)`), the dashboard does not. */
  datatype Scope = AnyBusiness | Business(id: UserId)

  predicate InScope(r: Appointment, scope: Scope) {
    scope.AnyBusiness? || r.barberId == Some(scope.id)
  }

  /** The row keeps its slot on `date` taken: it is in scope, on that date, and not cancelled
      (`.eq('appointment_date', date).neq('status', 'cancelled')`); blocked rows count. */
  predicate Occupies(r: Appointment, scope: Scope, date: string) {
    InScope(r, scope) && r.date == date && r.status != Cancelled
  }

  /** The taken list: the time prefix of every occupying row, in table order. */
  function Taken(rows: seq<Appointment>, scope: Scope, date: string): (r: seq<string>)
    ensures |r| <= |rows| && forall i :: 0 <= i < |r| ==> |r[i]| <= 5
  {
    if rows == [] then []
    else
      var last := rows[|rows| - 1];
      Taken(rows[..|rows| - 1], scope, date) +
        (if Occupies(last, scope, date) then [TimePrefix(last.time)] else [])
  }

  /** The public page's taken list for one business and date (PublicBooking.jsx:74-75, 92-93). */
  function PublicTaken(rows: seq<Appointment>, barber: UserId, date: string): (r: seq<string>)
    ensures forall t :: t in r <==>
              exists i :: 0 <= i < |rows| && rows[i].barberId == Some(barber) && rows[i].date == date &&
                          rows[i].status != Cancelled && TimePrefix(rows[i].time) == t
  {
    TakenIffAll(rows, Business(barber), date);
    Taken(rows, Business(barber), date)
  }

  /** The dashboard's taken list for a date, over every business (Dashboard.jsx:56-63). */
  function DashboardTaken(rows: seq<Appointment>, date: string): (r: seq<string>)
    ensures forall t :: t in r <==>
              exists i :: 0 <= i < |rows| && rows[i].date == date && rows[i].status != Cancelled &&
                          TimePrefix(rows[i].time) == t
  {
    TakenIffAll(rows, AnyBusiness, date);
    Taken(rows, AnyBusiness, date)
  }

  /** A string is taken exactly when some occupying row's time starts with it. */
  lemma {:induction false} TakenIff(rows: seq<Appointment>, scope: Scope, date: string, t: string)
    ensures t in Taken(rows, scope, date) <==>
              exists i :: 0 <= i < |rows| && Occupies(rows[i], scope, date) && TimePrefix(rows[i].time) == t
  {
    if rows != [] {
      var init := rows[..|rows| - 1];
      TakenIff(init, scope, date, t);
      assert forall i :: 0 <= i < |init| ==> init[i] == rows[i];
    }
  }

  lemma TakenIffAll(rows: seq<Appointment>, scope: Scope, date: string)
    ensures forall t :: t in Taken(rows, scope, date) <==>
              exists i :: 0 <= i < |rows| && Occupies(rows[i], scope, date) && TimePrefix(rows[i].time) == t
  {
    forall t ensures t in Taken(rows, scope, date) <==>
                     exists i :: 0 <= i < |rows| && Occupies(rows[i], scope, date) && TimePrefix(rows[i].time) == t {
      TakenIff(rows, scope, date, t);
    }
  }

  /** Adding a row adds its time to the taken list exactly when it occupies the slot. */
  lemma TakenAppend(rows: seq<Appointment>, r: Appointment, scope: Scope, date: string)
    ensures Taken(rows + [r], scope, date) ==
              Taken(rows, scope, date) + (if Occupies(r, scope, date) then [TimePrefix(r.time)] else [])
  {
    assert (rows + [r])[..|rows|] == rows;
  }

  /** Whatever the public page sees as taken, the dashboard sees as taken too. */
  lemma PublicWithinDashboard(rows: seq<Appointment>, barber: UserId, date: string, t: string)
    requires t in PublicTaken(rows, barber, date)
    ensures t in DashboardTaken(rows, date)
  {
    TakenIff(rows, Business(barber), date, t);
    TakenIff(rows, AnyBusiness, date, t);
  }

  /** The converse fails: the dashboard also greys out a slot that only another business has booked. */
  lemma DashboardSeesOtherBusinesses()
    ensures var r := Appointment(1, Some("shop-b"), None, "2024-05-01", "10:00:00", None, None, "General", None, Scheduled);
            "10:00" in DashboardTaken([r], "2024-05-01") && "10:00" !in PublicTaken([r], "shop-a", "2024-05-01")
  {
    var r := Appointment(1, Some("shop-b"), None, "2024-05-01", "10:00:00", None, None, "General", None, Scheduled);
    assert [r][..0] == [];
    assert TimePrefix(r.time) == "10:00";
  }

  /** The slots a client can still pick: the candidates that are not taken, in candidate order
      (a slot button is disabled exactly when its string is in the taken list). */
  function Bookable(slots: seq<string>, taken: seq<string>): (r: seq<string>)
    ensures |r| <= |slots| && forall i :: 0 <= i < |r| ==> r[i] !in taken
  {
    if slots == [] then []
    else (if slots[0] in taken then [] else [slots[0]]) + Bookable(slots[1..], taken)
  }

  lemma {:induction false} BookableIff(slots: seq<string>, taken: seq<string>, s: string)
    ensures s in Bookable(slots, taken) <==> s in slots && s !in taken
  {
    if slots != [] {
      BookableIff(slots[1..], taken, s);
      assert slots == [slots[0]] + slots[1..];
    }
  }

  /** Leaving out the taken slots keeps the others in their order. */
  lemma {:induction false} BookableKeepsOrder(slots: seq<string>, taken: seq<string>)
    ensures Embeds(Bookable(slots, taken), slots)
  {
    if slots != [] {
      BookableKeepsOrder(slots[1..], taken);
      var rest := Bookable(slots[1..], taken);
      if slots[0] !in taken {
        assert Bookable(slots, taken) == [slots[0]] + rest;
        assert ([slots[0]] + rest)[1..] == rest;
      } else {
        assert Bookable(slots, taken) == rest;
      }
    }
  }

  /** Candidates 09:00, 10:00, 11:00 with 10:00 occupied leave 09:00 and 11:00, in that order. */
  lemma BookableExample()
    ensures Bookable(["09:00", "10:00", "11:00"], ["10:00"]) == ["09:00", "11:00"]
  {
    assert "09:00" != "10:00" && "11:00" != "10:00";
  }

  /** The table after `update({status: 'cancelled'}).eq('id', id)`. */
  function CancelRows(rows: seq<Appointment>, id: nat): (r: seq<Appointment>)
    ensures |r| == |rows| && forall i :: 0 <= i < |r| ==> r[i].id == rows[i].id && r[i].time == rows[i].time
  {
    seq(|rows|, i requires 0 <= i < |rows| => if rows[i].id == id then rows[i].(status := Cancelled) else rows[i])
  }

  /** Cancelling deletes nothing and touches only the status of the rows with that id. */
  lemma CancelOnlyStatus(rows: seq<Appointment>, id: nat)
    ensures |CancelRows(rows, id)| == |rows|
    ensures forall i :: 0 <= i < |rows| ==>
              CancelRows(rows, id)[i].(status := rows[i].status) == rows[i] &&
              (CancelRows(rows, id)[i].status == Cancelled <==> rows[i].id == id || rows[i].status == Cancelled)
  {
  }

  /** Cancelling twice is cancelling once. */
  lemma CancelIdempotent(rows: seq<Appointment>, id: nat)
    ensures CancelRows(CancelRows(rows, id), id) == CancelRows(rows, id)
  {
  }

  /** After a cancellation a slot stays taken only through some other row: the cancelled rows
      no longer count. */
  lemma CancelFreesSlot(rows: seq<Appointment>, id: nat, scope: Scope, date: string, t: string)
    ensures t in Taken(CancelRows(rows, id), scope, date) <==>
              exists i :: 0 <= i < |rows| && rows[i].id != id && Occupies(rows[i], scope, date) && TimePrefix(rows[i].time) == t
  {
    var after := CancelRows(rows, id);
    TakenIff(after, scope, date, t);
    if t in Taken(after, scope, date) {
      var i :| 0 <= i < |after| && Occupies(after[i], scope, date) && TimePrefix(after[i].time) == t;
      assert rows[i].id != id && Occupies(rows[i], scope, date) && TimePrefix(rows[i].time) == t;
    }
    if exists i :: 0 <= i < |rows| && rows[i].id != id && Occupies(rows[i], scope, date) && TimePrefix(rows[i].time) == t {
      var i :| 0 <= i < |rows| && rows[i].id != id && Occupies(rows[i], scope, date) && TimePrefix(rows[i].time) == t;
      assert after[i] == rows[i];
    }
  }

  /** Both pages offer the cancel button only on a row whose status is "scheduled". */
  predicate CancelOffered(r: Appointment) {
    r.status == Scheduled
  }

  /** Once a row is cancelled it is never offered for cancellation again. */
  lemma CancelledNotOffered(rows: seq<Appointment>, id: nat, i: nat)
    requires i < |rows| && rows[i].id == id
    ensures !CancelOffered(CancelRows(rows, id)[i])
  {
  }
}
