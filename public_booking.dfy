/** The public booking page of one business (PublicBooking.jsx): it looks the business up,
    lists the day's slots with the taken ones disabled, and walks a client through
    pick a slot (step 1), enter contact details (step 2) and confirmation (step 3). Bookings
    made from the device are remembered in the device's `my_bookings` list. */
module PublicBooking {
  import opened Wrappers
  import opened Appointments
  import opened Backend
  import Slots
  import Ordering

  datatype Step = Pick | Details | Done
  datatype View = Booking | MyAppointments

  /** A `profiles` row as the page reads it; `config` is None when none is stored. */
  datatype Profile = Profile(id: UserId, businessName: string, config: Option<Slots.ConfigText>)

  /** The number the page uses for each step. */
  function StepNumber(s: Step): nat {
    match s
    case Pick => 1
    case Details => 2
    case Done => 3
  }

  /** The step changes the page's clicks make, when each booking is answered while step 2 is
      still shown: 1 to 2, 2 to 1, 2 to 3, 3 to 1, or none. */
  predicate StepMove(from: Step, to: Step) {
    from == to ||
    (from == Pick && to == Details) || (from == Details && to == Pick) ||
    (from == Details && to == Done) || (from == Done && to == Pick)
  }

  /** A run of those step changes that starts at step 1 and reaches step 3 passes through step 2. */
  lemma StepRuns(path: seq<Step>)
    requires |path| >= 1
    requires forall i :: 0 < i < |path| ==> StepMove(path[i - 1], path[i])
    requires path[0] == Pick && Done in path
    ensures Details in path
  {
    var j :| 0 <= j < |path| && path[j] == Done;
    ReachDone(path, j);
  }

  /** Along any run of those step changes the step rises by at most one, and step 3 never
      goes to step 2. */
  lemma StepMovesBounded(path: seq<Step>)
    requires forall i :: 0 < i < |path| ==> StepMove(path[i - 1], path[i])
    ensures forall i :: 0 < i < |path| ==> StepNumber(path[i]) <= StepNumber(path[i - 1]) + 1
    ensures forall i :: 0 < i < |path| && path[i - 1] == Done ==> path[i] != Details
  {
    forall i | 0 < i < |path| ensures StepNumber(path[i]) <= StepNumber(path[i - 1]) + 1 {
      assert StepMove(path[i - 1], path[i]);
    }
  }

  lemma {:induction false} ReachDone(path: seq<Step>, j: nat)
    requires j < |path| && path[0] == Pick && path[j] == Done
    requires forall i :: 0 < i < |path| ==> StepMove(path[i - 1], path[i])
    ensures exists i :: 0 <= i < j && path[i] == Details
    decreases j
  {
    assert j > 0;
    if path[j - 1] == Done {
      ReachDone(path, j - 1);
    } else {
      assert path[j - 1] == Details;
    }
  }

  /** The configuration a found business gets: its own, or the built-in default. */
  function EffectiveConfig(p: Profile): Slots.ConfigText {
    p.config.GetOr(Slots.DefaultConfig)
  }

  /** The row the page inserts for a booking; its id is assigned by the store. */
  function Request(barber: UserId, date: string, time: string, name: string, phone: string): (r: Appointment)
    ensures r.status == Scheduled && r.barberId == Some(barber) && r.date == date && r.time == time
  {
    Appointment(0, Some(barber), None, date, time, Some(name), Some(phone), "General", None, Scheduled)
  }

  /** The rows the device booked: `.in('id', savedIds)`. */
  function MyRows(rows: seq<Appointment>, ids: seq<nat>): (r: seq<Appointment>)
    ensures |r| <= |rows| && forall i :: 0 <= i < |r| ==> r[i].id in ids
  {
    if rows == [] then []
    else (if rows[0].id in ids then [rows[0]] else []) + MyRows(rows[1..], ids)
  }

  /** "My appointments": the device's rows, by date (`.order('appointment_date')`). */
  function MyAppointmentsList(rows: seq<Appointment>, ids: seq<nat>): (r: seq<Appointment>)
    ensures Ordering.Sorted(Ordering.ByDate, r)
  {
    Ordering.SortBySorted(Ordering.ByDate, MyRows(rows, ids));
    Ordering.SortBy(Ordering.ByDate, MyRows(rows, ids))
  }

  lemma {:induction false} MyRowsIff(rows: seq<Appointment>, ids: seq<nat>, r: Appointment)
    ensures r in MyRows(rows, ids) <==> r in rows && r.id in ids
  {
    if rows != [] {
      MyRowsIff(rows[1..], ids, r);
      assert rows == [rows[0]] + rows[1..];
    }
  }

  /** The list shows exactly the device's rows, ordered by date. */
  lemma MyAppointmentsShape(rows: seq<Appointment>, ids: seq<nat>)
    ensures forall r :: r in MyAppointmentsList(rows, ids) <==> r in rows && r.id in ids
    ensures Ordering.Sorted(Ordering.ByDate, MyAppointmentsList(rows, ids))
  {
    forall r ensures r in MyAppointmentsList(rows, ids) <==> r in rows && r.id in ids {
      MyRowsIff(rows, ids, r);
      assert r in MyAppointmentsList(rows, ids) <==> r in multiset(MyRows(rows, ids));
    }
    Ordering.SortBySorted(Ordering.ByDate, MyRows(rows, ids));
  }

  /** A stored booking row takes its hour on its business's public page for its date. */
  lemma StoredIsTaken(rows: seq<Appointment>, r: Appointment)
    requires r.status == Scheduled && r.barberId.Some? && |r.time| == 5
    ensures r.time in PublicTaken(rows + [r], r.barberId.value, r.date)
  {
    TakenAppend(rows, r, Business(r.barberId.value), r.date);
    assert TimePrefix(r.time) == r.time;
  }

  class BookingPage {
    const db: Table
    var barber: Option<Profile>
    var config: Option<Slots.ConfigText>
    var loading: bool
    var date: string
    var selectedTime: Option<string>
    var clientName: string
    var clientPhone: string
    var step: Step
    var dynamicSlots: seq<string>
    var takenSlots: seq<string>
    var myAppointments: seq<Appointment>
    var view: View
    /** The device's `my_bookings` list of booked ids. */
    var myBookings: seq<nat>
    /** Booking rows sent and not yet answered by the store. The form stays usable meanwhile. */
    var inFlight: seq<Appointment>

    ghost predicate Valid()
      reads this, db
    {
      db.Valid() &&
      (step != Pick ==> selectedTime.Some?) &&
      (forall i :: 0 <= i < |dynamicSlots| ==> |dynamicSlots[i]| == 5) &&
      (selectedTime.Some? ==> |selectedTime.value| == 5) &&
      (config.Some? ==> Slots.Terminates(Slots.ParseConfig(config.value))) &&
      (inFlight != [] ==> selectedTime.Some?) &&
      (forall i :: 0 <= i < |inFlight| ==> Sendable(inFlight[i]))
    }

    /** A booking row as the form builds it: scheduled, for a business, at a five-character time. */
    static predicate Sendable(r: Appointment) {
      r.status == Scheduled && r.barberId.Some? && |r.time| == 5
    }

    /** The page body is shown: loading has finished and the business was found. */
    predicate Shown()
      reads this
    {
      !loading && barber.Some?
    }

    /** Step `s` of the booking tab is on screen. */
    predicate AtStep(s: Step)
      reads this
    {
      Shown() && view == Booking && step == s
    }

    constructor (db: Table, today: string, savedIds: seq<nat>)
      requires db.Valid()
      ensures Valid() && this.db == db
      ensures barber == None && config == None && loading
      ensures date == today && selectedTime == None && clientName == "" && clientPhone == ""
      ensures step == Pick && view == Booking
      ensures dynamicSlots == [] && takenSlots == [] && myAppointments == []
      ensures myBookings == savedIds && inFlight == []
    {
      this.db := db;
      barber, config, loading := None, None, true;
      date, selectedTime, clientName, clientPhone := today, None, "", "";
      step, view := Pick, Booking;
      dynamicSlots, takenSlots, myAppointments := [], [], [];
      myBookings := savedIds;
      inFlight := [];
    }

    /** The slug lookup's answer (lines 28-35): a found business brings its configuration, or
        the default one; either way loading ends. A configuration whose slot loop would never
        end is one the page cannot be used with. */
    method LoadBusiness(found: Option<Profile>)
      requires Valid()
      requires found.Some? ==> Slots.Terminates(Slots.ParseConfig(EffectiveConfig(found.value)))
      modifies this`barber, this`config, this`loading
      ensures Valid() && !loading
      ensures found.Some? ==> barber == found && config == Some(EffectiveConfig(found.value))
      ensures found.None? ==> barber == old(barber) && config == old(config)
    {
      if found.Some? {
        barber := found;
        config := Some(EffectiveConfig(found.value));
      }
      loading := false;
    }

    /** The effect that runs when the configuration changes (lines 39-54). */
    method RecomputeSlots()
      requires Valid()
      modifies this`dynamicSlots
      ensures Valid()
      ensures config.None? ==> dynamicSlots == old(dynamicSlots)
      ensures config.Some? ==> dynamicSlots == Slots.SlotStrings(config.value)
    {
      if config.None? {
        return;
      }
      dynamicSlots := Slots.GenerateSlots(Slots.ParseConfig(config.value));
    }

    /** The effect that runs when the date or the business changes (lines 71-78); nothing is
        fetched for a business that was not found. */
    method RefreshTaken()
      requires Valid()
      modifies this`takenSlots
      ensures Valid()
      ensures barber.None? ==> takenSlots == old(takenSlots)
      ensures barber.Some? ==> takenSlots == PublicTaken(db.rows, barber.value.id, date)
    {
      if barber.None? {
        return;
      }
      takenSlots := PublicTaken(db.rows, barber.value.id, date);
    }

    /** The effect that runs when the step or the view changes (lines 56-69): an empty device
        list fetches nothing and leaves the shown list as it was. */
    method LoadMyAppointments()
      requires Valid()
      modifies this`myAppointments
      ensures Valid()
      ensures myBookings == [] ==> myAppointments == old(myAppointments)
      ensures myBookings != [] ==> myAppointments == MyAppointmentsList(db.rows, myBookings)
    {
      if |myBookings| > 0 {
        myAppointments := MyAppointmentsList(db.rows, myBookings);
      }
    }

    /** The two tabs (lines 120-121). */
    method SwitchView(v: View)
      requires Valid()
      modifies this`view
      ensures Valid()
      ensures view == if old(Shown()) then v else old(view)
    {
      if Shown() {
        view := v;
      }
    }

    /** The date picker of step 1 (line 131). */
    method ChooseDate(d: string)
      requires Valid()
      modifies this`date
      ensures Valid()
      ensures date == if old(AtStep(Pick)) then d else old(date)
    {
      if AtStep(Pick) {
        date := d;
      }
    }

    /** A slot button (lines 135-138): it exists for each generated slot and is disabled when
        the slot is taken, so only a free slot moves the page from step 1 to step 2. */
    method PickSlot(slot: string) returns (picked: bool)
      requires Valid()
      modifies this`selectedTime, this`step
      ensures Valid()
      ensures picked <==> old(AtStep(Pick)) && slot in dynamicSlots && slot !in takenSlots
      ensures picked ==> selectedTime == Some(slot) && step == Details
      ensures !picked ==> selectedTime == old(selectedTime) && step == old(step)
      ensures StepMove(old(step), step)
    {
      picked := AtStep(Pick) && slot in dynamicSlots && slot !in takenSlots;
      if picked {
        selectedTime := Some(slot);
        step := Details;
      }
    }

    /** The name and phone inputs of step 2 (lines 154-155). */
    method EditContact(name: string, phone: string)
      requires Valid()
      modifies this`clientName, this`clientPhone
      ensures Valid()
      ensures old(AtStep(Details)) ==> clientName == name && clientPhone == phone
      ensures !old(AtStep(Details)) ==> clientName == old(clientName) && clientPhone == old(clientPhone)
    {
      if AtStep(Details) {
        clientName, clientPhone := name, phone;
      }
    }

    /** "Atrás" (line 157): back from step 2 to step 1. */
    method Back()
      requires Valid()
      modifies this`step
      ensures Valid()
      ensures step == if old(AtStep(Details)) then Pick else old(step)
      ensures StepMove(old(step), step)
    {
      if AtStep(Details) {
        step := Pick;
      }
    }

    /** The form's submit (lines 80-87). The browser submits only with both required inputs
        filled, and a slot already in the taken list is refused before any insert. Otherwise
        the booking row, built from the page's current business, date, slot and contact
        details, is sent to the store; the page does not change until the answer. */
    method SubmitBooking() returns (sent: Option<Appointment>)
      requires Valid()
      modifies this`inFlight
      ensures Valid()
      ensures sent.Some? <==>
                AtStep(Details) && clientName != "" && clientPhone != "" && selectedTime.value !in takenSlots
      ensures sent.Some? ==>
                sent.value == Request(barber.value.id, date, selectedTime.value, clientName, clientPhone) &&
                inFlight == old(inFlight) + [sent.value]
      ensures sent.None? ==> inFlight == old(inFlight)
    {
      if !(AtStep(Details) && clientName != "" && clientPhone != "") {
        return None;
      }
      if selectedTime.value in takenSlots {
        // "Horario ocupado."
        return None;
      }
      var request := Request(barber.value.id, date, selectedTime.value, clientName, clientPhone);
      sent := Some(request);
      inFlight := inFlight + [request];
    }

    /** The store's answer to the `i`-th booking in flight (lines 87-100). The handler goes on
        with the business and date it was called with, whatever the page shows by now. A stored
        row's id is appended to the device list and the page moves to step 3, from whichever
        step it is at; a uniqueness violation fetches the taken list of the booking's business
        and date again; any other error changes nothing. */
    method AnswerBooking(i: nat, verdict: Verdict) returns (result: InsertResult)
      requires Valid() && i < |inFlight|
      modifies this`inFlight, this`myBookings, this`step, this`takenSlots, db
      ensures Valid()
      ensures inFlight == old(inFlight[..i] + inFlight[i + 1..])
      ensures old(myBookings) <= myBookings
      ensures verdict.Accept? ==>
                result == Inserted(old(inFlight[i]).(id := old(db.nextId))) &&
                db.rows == old(db.rows) + [result.row] && db.nextId == old(db.nextId) + 1 &&
                myBookings == old(myBookings) + [old(db.nextId)] && step == Done && takenSlots == old(takenSlots) &&
                old(inFlight[i]).time in PublicTaken(db.rows, old(inFlight[i]).barberId.value, old(inFlight[i]).date)
      ensures verdict.Reject? ==>
                result == Failed(verdict.code, verdict.message) &&
                db.rows == old(db.rows) && db.nextId == old(db.nextId) &&
                myBookings == old(myBookings) && step == old(step)
      ensures verdict.Reject? && verdict.code == UniqueViolation ==>
                takenSlots == PublicTaken(db.rows, old(inFlight[i]).barberId.value, old(inFlight[i]).date)
      ensures verdict.Reject? && verdict.code != UniqueViolation ==> takenSlots == old(takenSlots)
    {
      var request := inFlight[i];
      result := db.Insert(request, verdict);
      if result.Inserted? {
        StoredIsTaken(old(db.rows), result.row);
        Booked(result.row.id);
      } else if result.code == UniqueViolation {
        // "¡Ups! Alguien acaba de ganar ese horario."
        takenSlots := PublicTaken(db.rows, request.barberId.value, request.date);
      }
      Drop(i);
    }

    /** The answered booking leaves the in-flight list. */
    method Drop(i: nat)
      requires Valid() && i < |inFlight|
      modifies this`inFlight
      ensures Valid() && inFlight == old(inFlight[..i] + inFlight[i + 1..])
    {
      inFlight := inFlight[..i] + inFlight[i + 1..];
    }

    /** A stored booking (lines 96-99): its id joins the device list and the page shows step 3. */
    method Booked(id: nat)
      requires Valid() && selectedTime.Some?
      modifies this`myBookings, this`step
      ensures Valid() && myBookings == old(myBookings) + [id] && step == Done
    {
      myBookings := myBookings + [id];
      step := Done;
    }

    /** "Ver mis citas" on step 3 (line 167): back to step 1, showing the device's bookings. */
    method ShowMyBookings()
      requires Valid()
      modifies this`step, this`view
      ensures Valid()
      ensures old(AtStep(Done)) ==> step == Pick && view == MyAppointments
      ensures !old(AtStep(Done)) ==> step == old(step) && view == old(view)
      ensures StepMove(old(step), step)
    {
      if AtStep(Done) {
        step := Pick;
        view := MyAppointments;
      }
    }
  }

  /** Nothing disables the form while a booking is in flight: a client who submits, goes back
      to step 1 with "Atrás" and waits sees the answer move the page straight from step 1 to
      step 3. This holds for any found business whose configuration yields a slot. */
  method BackWhileBooking(shop: Profile, today: string, name: string, phone: string) returns (before: Step, after: Step)
    requires Slots.Terminates(Slots.ParseConfig(EffectiveConfig(shop)))
    requires Slots.SlotStrings(EffectiveConfig(shop)) != [] && name != "" && phone != ""
    ensures before == Pick && after == Done
  {
    var page := OpenDetails(shop, today, name, phone);
    var sent := page.SubmitBooking();
    assert |page.inFlight| == 1;
    page.Back();
    before := page.step;
    var result := page.AnswerBooking(0, Accept);
    after := page.step;
  }

  /** A fresh page for a found business, with its first slot picked and the contact filled in. */
  method OpenDetails(shop: Profile, today: string, name: string, phone: string) returns (page: BookingPage)
    requires Slots.Terminates(Slots.ParseConfig(EffectiveConfig(shop)))
    requires Slots.SlotStrings(EffectiveConfig(shop)) != [] && name != "" && phone != ""
    ensures fresh(page) && fresh(page.db) && page.Valid()
    ensures page.AtStep(Details) && page.clientName == name && page.clientPhone == phone
    ensures page.selectedTime.value !in page.takenSlots && page.inFlight == []
  {
    page := OpenPick(shop, today);
    var picked := page.PickSlot(page.dynamicSlots[0]);
    page.EditContact(name, phone);
  }

  /** A fresh page for a found business, showing its slots with none taken. */
  method OpenPick(shop: Profile, today: string) returns (page: BookingPage)
    requires Slots.Terminates(Slots.ParseConfig(EffectiveConfig(shop)))
    requires Slots.SlotStrings(EffectiveConfig(shop)) != []
    ensures fresh(page) && fresh(page.db) && page.Valid()
    ensures page.AtStep(Pick) && page.takenSlots == [] && page.dynamicSlots != [] && page.inFlight == []
  {
    var db := new Table();
    page := new BookingPage(db, today, []);
    page.LoadBusiness(Some(shop));
    page.RecomputeSlots();
  }
}
