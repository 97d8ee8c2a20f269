/** The signed-in dashboard (Dashboard.jsx): a fixed list of candidate hours, the day's taken
    hours over every business, the account's appointment list (every row for an admin), booking
    a free hour and cancelling a scheduled appointment. */
module Dashboard {
  import opened Wrappers
  import opened Appointments
  import opened Backend
  import Slots
  import Ordering
  import Lex
  import Clock

  /** The hard-coded candidate hours (lines 13-16). */
  const AllSlots: seq<string> := ["09:00", "10:00", "11:00", "12:00", "14:00", "15:00", "16:00", "17:00", "18:00"]

  lemma DefaultRendered(p: seq<nat>)
    requires p == [540, 600, 660, 720, 840, 900, 960, 1020, 1080]
    ensures Slots.Render(p) == AllSlots
  {
    assert Clock.Format(540) == "09:00";
    assert Clock.Format(600) == "10:00";
    assert Clock.Format(660) == "11:00";
    assert Clock.Format(720) == "12:00";
    assert Clock.Format(840) == "14:00";
    assert Clock.Format(900) == "15:00";
    assert Clock.Format(960) == "16:00";
    assert Clock.Format(1020) == "17:00";
    assert Clock.Format(1080) == "18:00";
  }

  /** The dashboard's hours are exactly what the public page generates from the default
      configuration. */
  lemma AllSlotsAreDefault()
    ensures AllSlots == Slots.SlotStrings(Slots.DefaultConfig)
  {
    Slots.DefaultPoints();
    DefaultRendered(Slots.Points(Slots.ParseConfig(Slots.DefaultConfig)));
  }

  /** The hours are in increasing order. */
  lemma AllSlotsIncreasing()
    ensures forall i, j :: 0 <= i < j < |AllSlots| ==> Lex.Less(AllSlots[i], AllSlots[j])
  {
    AllSlotsAreDefault();
    Slots.SlotStringsIncreasing(Slots.DefaultConfig);
  }

  /** Every hour lies between 09:00 and 18:00. */
  lemma AllSlotsWithinHours()
    ensures forall i :: 0 <= i < |AllSlots| ==> Lex.LessEq("09:00", AllSlots[i]) && Lex.LessEq(AllSlots[i], "18:00")
  {
    AllSlotsIncreasing();
    assert AllSlots[0] == "09:00" && AllSlots[8] == "18:00";
  }

  /** The 13:00 lunch hour is left out. */
  lemma AllSlotsSkipLunch()
    ensures "13:00" !in AllSlots
  {
    AllSlotsAreDefault();
    Slots.DefaultParsed();
    Slots.SlotStringsSkipBreak(Slots.DefaultConfig, 780);
    LunchFormatted();
  }

  lemma LunchFormatted()
    ensures Clock.Format(780) == "13:00"
  {
  }

  /** A slot button is disabled while its hour is taken or a booking is in flight (lines 136-140). */
  predicate SlotDisabled(slot: string, taken: seq<string>, loading: bool) {
    slot in taken || loading
  }

  /** The rows the account may list: all of them for an admin, otherwise its own
      (`.eq('user_id', session.user.id)`). */
  function Visible(rows: seq<Appointment>, isAdmin: bool, user: UserId): (r: seq<Appointment>)
    ensures |r| <= |rows| && forall i :: 0 <= i < |r| ==> isAdmin || r[i].userId == Some(user)
  {
    if rows == [] then []
    else (if isAdmin || rows[0].userId == Some(user) then [rows[0]] else []) + Visible(rows[1..], isAdmin, user)
  }

  /** The appointment list: the visible rows by date, then time (lines 38-47). */
  function Listing(rows: seq<Appointment>, isAdmin: bool, user: UserId): (r: seq<Appointment>)
    ensures Ordering.Sorted(Ordering.ByDateThenTime, r)
  {
    Ordering.SortBySorted(Ordering.ByDateThenTime, Visible(rows, isAdmin, user));
    Ordering.SortBy(Ordering.ByDateThenTime, Visible(rows, isAdmin, user))
  }

  lemma {:induction false} VisibleIff(rows: seq<Appointment>, isAdmin: bool, user: UserId, r: Appointment)
    ensures r in Visible(rows, isAdmin, user) <==> r in rows && (isAdmin || r.userId == Some(user))
  {
    if rows != [] {
      VisibleIff(rows[1..], isAdmin, user, r);
      assert rows == [rows[0]] + rows[1..];
    }
  }

  lemma {:induction false} VisibleAll(rows: seq<Appointment>, user: UserId)
    ensures Visible(rows, true, user) == rows
  {
    if rows != [] {
      VisibleAll(rows[1..], user);
      assert rows == [rows[0]] + rows[1..];
    }
  }

  /** An account sees exactly its own rows and an admin every row, each as often as it is
      stored, ordered by date and then time. */
  lemma ListingShape(rows: seq<Appointment>, isAdmin: bool, user: UserId)
    ensures forall r :: r in Listing(rows, isAdmin, user) <==> r in rows && (isAdmin || r.userId == Some(user))
    ensures isAdmin ==> multiset(Listing(rows, isAdmin, user)) == multiset(rows)
    ensures Ordering.Sorted(Ordering.ByDateThenTime, Listing(rows, isAdmin, user))
  {
    forall r ensures r in Listing(rows, isAdmin, user) <==> r in rows && (isAdmin || r.userId == Some(user)) {
      VisibleIff(rows, isAdmin, user, r);
      assert r in Listing(rows, isAdmin, user) <==> r in multiset(Visible(rows, isAdmin, user));
    }
    if isAdmin {
      VisibleAll(rows, user);
    }
    Ordering.SortBySorted(Ordering.ByDateThenTime, Visible(rows, isAdmin, user));
  }

  /** The note a dashboard booking carries (line 83). */
  function BookingNote(isAdmin: bool): string {
    if isAdmin then "Agendado por Admin" else "Web Booking"
  }

  /** The row the dashboard inserts for a booking (lines 78-85); the store assigns the id. */
  function Request(user: UserId, date: string, time: string, isAdmin: bool): (r: Appointment)
    ensures r.status == Scheduled && r.userId == Some(user) && r.date == date && r.time == time
    ensures r.notes == Some(if isAdmin then "Agendado por Admin" else "Web Booking")
  {
    Appointment(0, None, Some(user), date, time, None, None, "Corte Clásico", Some(BookingNote(isAdmin)), Scheduled)
  }

  /** A booking made here carries no business (`barber_id` is left null), so it greys out its
      hour on the dashboard but on no business's public page. */
  lemma DashboardBookingUnseenByPublic(rows: seq<Appointment>, user: UserId, date: string, time: string,
                                       isAdmin: bool, id: nat, barber: UserId)
    ensures var stored := Request(user, date, time, isAdmin).(id := id);
            PublicTaken(rows + [stored], barber, date) == PublicTaken(rows, barber, date) &&
            DashboardTaken(rows + [stored], date) == DashboardTaken(rows, date) + [TimePrefix(time)]
  {
    var stored := Request(user, date, time, isAdmin).(id := id);
    TakenAppend(rows, stored, Business(barber), date);
    TakenAppend(rows, stored, AnyBusiness, date);
  }

  class DashboardPage {
    const db: Table
    const userId: UserId
    var appointments: seq<Appointment>
    var date: string
    var takenSlots: seq<string>
    var loading: bool
    var isAdmin: bool
    /** The booking insert awaiting the store's answer. */
    var pending: Option<Appointment>
    /** The admin flag of the render whose click sent the pending booking. */
    var pendingAdmin: bool

    ghost predicate Valid()
      reads this, db
    {
      db.Valid() && (loading <==> pending.Some?)
    }

    constructor (db: Table, userId: UserId, today: string)
      requires db.Valid()
      ensures Valid() && this.db == db && this.userId == userId
      ensures appointments == [] && date == today && takenSlots == []
      ensures !loading && !isAdmin && pending == None && !pendingAdmin
    {
      this.db := db;
      this.userId := userId;
      appointments, date, takenSlots := [], today, [];
      loading, isAdmin, pending, pendingAdmin := false, false, None, false;
    }

    /** The role lookup (lines 19-33): the flag is raised for an "admin" profile and never
        lowered. */
    method CheckRole(role: Option<string>)
      requires Valid()
      modifies this`isAdmin
      ensures Valid()
      ensures isAdmin == (old(isAdmin) || role == Some("admin"))
    {
      if role == Some("admin") {
        isAdmin := true;
      }
    }

    /** `fetchAppointments` (lines 36-53), with the admin flag of the render it belongs to. */
    method FetchAppointments(admin: bool)
      requires Valid()
      modifies this`appointments
      ensures Valid()
      ensures appointments == Listing(db.rows, admin, userId)
    {
      appointments := Listing(db.rows, admin, userId);
    }

    /** `fetchTakenSlots` (lines 56-64), with the date of the render it belongs to. */
    method FetchTakenSlots(d: string)
      requires Valid()
      modifies this`takenSlots
      ensures Valid()
      ensures takenSlots == DashboardTaken(db.rows, d)
    {
      takenSlots := DashboardTaken(db.rows, d);
    }

    /** The date input (line 129); the lists are fetched again by the effect on the date. */
    method ChooseDate(d: string)
      requires Valid()
      modifies this`date
      ensures Valid() && date == d
    {
      date := d;
    }

    /** A click on an hour button and the confirmation dialog (lines 74-85): an enabled button
        that is confirmed sends the booking row and sets `loading`, which disables every button
        until the answer arrives. */
    method BeginBook(time: string, confirmed: bool) returns (request: Option<Appointment>)
      requires Valid()
      modifies this`loading, this`pending, this`pendingAdmin
      ensures Valid()
      ensures request.Some? <==> time in AllSlots && !SlotDisabled(time, old(takenSlots), old(loading)) && confirmed
      ensures request.Some? ==>
                request.value == Request(userId, date, time, isAdmin) && loading && pending == request && pendingAdmin == isAdmin
      ensures request.None? ==> loading == old(loading) && pending == old(pending) && pendingAdmin == old(pendingAdmin)
      ensures request.Some? ==> forall s :: SlotDisabled(s, takenSlots, loading)
    {
      if !(time in AllSlots && !SlotDisabled(time, takenSlots, loading) && confirmed) {
        return None;
      }
      request := Some(Request(userId, date, time, isAdmin));
      pending, pendingAdmin := request, isAdmin;
      loading := true;
    }

    /** The store's answer to the pending booking (lines 87-93): a stored row makes both lists
        be fetched again, for the date and admin flag of the click, since `handleBook` belongs
        to the render the click came from; an error changes neither. Either way `loading` ends. */
    method CompleteBook(verdict: Verdict) returns (result: Option<InsertResult>)
      requires Valid()
      modifies this`loading, this`pending, this`appointments, this`takenSlots, db
      ensures Valid() && !loading && pending == None
      ensures result.Some? <==> old(pending).Some?
      ensures old(pending).None? ==> db.rows == old(db.rows) && db.nextId == old(db.nextId) && appointments == old(appointments) && takenSlots == old(takenSlots)
      ensures old(pending).Some? && verdict.Accept? ==>
                db.rows == old(db.rows) + [old(pending).value.(id := old(db.nextId))] &&
                appointments == Listing(db.rows, old(pendingAdmin), userId) &&
                takenSlots == DashboardTaken(db.rows, old(pending).value.date)
      ensures old(pending).Some? && verdict.Reject? ==>
                db.rows == old(db.rows) && db.nextId == old(db.nextId) &&
                appointments == old(appointments) && takenSlots == old(takenSlots)
    {
      if pending.None? {
        loading := false;
        return None;
      }
      var request, admin := pending.value, pendingAdmin;
      var r := db.Insert(request, verdict);
      result := Some(r);
      loading, pending := false, None;
      if r.Inserted? {
        // the two fetches are started, not awaited, before `loading` is cleared
        Refetch(request.date, admin);
      }
    }

    /** `fetchAppointments(); fetchTakenSlots();` of the render with date `d` and flag `admin`. */
    method Refetch(d: string, admin: bool)
      requires Valid()
      modifies this`appointments, this`takenSlots
      ensures Valid()
      ensures appointments == Listing(db.rows, admin, userId) && takenSlots == DashboardTaken(db.rows, d)
    {
      FetchAppointments(admin);
      FetchTakenSlots(d);
    }

    /** The effect on `[date, session, isAdmin]` (lines 67-71): both lists for the page's
        current date and flag. */
    method Reload()
      requires Valid()
      modifies this`appointments, this`takenSlots
      ensures Valid()
      ensures appointments == Listing(db.rows, isAdmin, userId) && takenSlots == DashboardTaken(db.rows, date)
    {
      Refetch(date, isAdmin);
    }

    /** The cancel button of a listed appointment and its confirmation (lines 97-107, 195): the
        button exists only on a scheduled row. Confirming sends the update, which sets that
        row's status to cancelled and deletes nothing when the store accepts it; its error is
        ignored. Both lists are fetched again either way. */
    method HandleCancel(id: nat, confirmed: bool, verdict: Verdict) returns (sent: bool)
      requires Valid()
      modifies this`appointments, this`takenSlots, db`rows
      ensures Valid()
      ensures sent <==> confirmed && exists i :: 0 <= i < |old(appointments)| && old(appointments)[i].id == id && CancelOffered(old(appointments)[i])
      ensures sent && verdict.Accept? ==> db.rows == CancelRows(old(db.rows), id)
      ensures sent && verdict.Reject? ==> db.rows == old(db.rows)
      ensures sent ==> appointments == Listing(db.rows, isAdmin, userId) && takenSlots == DashboardTaken(db.rows, date)
      ensures !sent ==> db.rows == old(db.rows) && appointments == old(appointments) && takenSlots == old(takenSlots)
    {
      sent := confirmed && exists i :: 0 <= i < |appointments| && appointments[i].id == id && CancelOffered(appointments[i]);
      if !sent {
        return;
      }
      var _ := db.Cancel(id, verdict);
      Refetch(date, isAdmin);
    }
  }

  /** Nothing disables the date input while a booking is in flight: a booking of 10:00 sent on
      `d1`, a change to `d2` and an accepted answer leave the page showing `d2` with the taken
      hours of `d1`, while `d2` itself has none. */
  method DateChangeWhileBooking(user: UserId, d1: string, d2: string) returns (shownDate: string, shown: seq<string>, current: seq<string>)
    requires d1 != d2
    ensures shownDate == d2 && shown == ["10:00"] && current == []
  {
    var db := new Table();
    var page := new DashboardPage(db, user, d1);
    var request := page.BeginBook("10:00", true);
    page.ChooseDate(d2);
    var result := page.CompleteBook(Accept);
    shownDate, shown := page.date, page.takenSlots;
    current := DashboardTaken(db.rows, page.date);
  }
}
