# Barber booking: slots, bookings and notifications in Dafny

This project models the logic at the centre of a barbershop booking web application. Three
parts are modelled:

- **Public booking page** (`src/pages/PublicBooking.jsx`). A business's schedule
  configuration is turned into the day's "HH:MM" slot strings. Slots that already have a
  non-cancelled appointment are disabled. A client goes through pick a slot (step 1), contact
  details (step 2) and confirmation (step 3). Each booking's id is appended to a list kept
  on the device.
- **Signed-in dashboard** (`src/pages/Dashboard.jsx`). It has a fixed list of candidate
  hours and a day's taken hours. The appointment list shows an account's own rows, or every
  row for an admin, sorted by date and then time. It can book a free hour while a loading
  flag disables the buttons, and cancel a scheduled appointment by changing its status.
- **Notification queue** (`src/components/Toast.jsx`). Toasts are appended, removed by id,
  and scheduled for automatic removal when their duration is positive.

How the model is built:

- **Times.** A time of day is a whole number of minutes after midnight. `Clock.Format`
  renders a time as the zero-padded 24-hour "HH:MM" string. `Clock.ParseTime` reads such a
  string the way the page's `new Date("2000-01-01T" + s)` does. A string that is not a time
  gives an invalid date, which every comparison answers with false. So an invalid start or
  end produces no slots, and an invalid break bound excludes nothing.
- **Slot loop.** The loop of the slot generator is an imperative method, `Slots.GenerateSlots`.
  It is proved against the recursive specification `Slots.PointsFrom`. The lemmas on
  `PointsFrom` give bounds, order, break exclusion, the grid, and completeness with exactly
  one occurrence of each slot.
- **Stored table.** The hosted `appointments` table is a class, `Backend.Table`: a sequence
  of rows plus the next id to hand out. Whether the store accepts an insert is decided by
  constraints the pages cannot see. It is therefore a parameter, `Backend.Verdict`: accept,
  or refuse with an error code, where "23505" is a uniqueness violation.
- **Pages and effects.** Each page is a class whose fields are the page's state variables.
  Every React effect is a method the host calls when the effect's dependencies change, and
  every click handler is a method. A dialog answer (`window.confirm`) is a boolean parameter.
  The clock reading (`Date.now()`) is an integer parameter.
- **Ordering.** Dates and times are stored as fixed-width strings. The store's ordering and
  JavaScript's comparisons are therefore lexicographic order on strings, which is `Lex.Less`.
  `Clock.FormatOrder` proves that this order agrees with the order of the times.

Facts about the code that the model makes explicit:

- **Dashboard list.** The dashboard lists every row for an admin, and the account's own rows
  otherwise, on every date (`Dashboard.ListingShape`).
- **Dashboard taken hours.** The dashboard's taken hours are counted over the rows of every
  business (`Appointments.DashboardSeesOtherBusinesses`).
- **Dashboard bookings.** A dashboard booking stores no business id, so no public page counts
  its hour as taken (`Dashboard.DashboardBookingUnseenByPublic`).
- **Dashboard booking in flight.** The date input stays enabled while a dashboard booking is
  pending. An accepted answer fetches the lists for the date and admin flag of the click, so
  the page can show one date with another date's taken hours
  (`Dashboard.DateChangeWhileBooking`).
- **Dashboard cancel.** The error of the cancel update is ignored: both lists are fetched again
  whether or not the store accepted it (`Dashboard.DashboardPage.HandleCancel`).
- **Public booking in flight.** Nothing disables the public form while its insert is pending.
  The submit and the store's answer are two methods, `SubmitBooking` and `AnswerBooking`, and
  a success moves the page to step 3 from whichever step it shows by then
  (`PublicBooking.BackWhileBooking`).

## Model

| member | source | states |
|---|---|---|
| Clock.Format | src/pages/PublicBooking.jsx:48 | a time before midnight renders as five characters: two hour digits, ':' and two minute digits |
| Clock.ParseTime | src/pages/PublicBooking.jsx:42-45 | a configured time that reads as a date lies between 00:00 and 24:00 inclusive; anything else is an invalid date |
| Clock.ParseFormat | src/pages/PublicBooking.jsx:42-48 | reading back a rendered time gives that time (round trip) |
| Clock.FormatParse | src/pages/PublicBooking.jsx:42-48 | every string that reads as a time before midnight is the rendering of that time, so strings and minutes correspond one to one |
| Clock.FormatInjective | src/pages/PublicBooking.jsx:48 | different times render as different strings |
| Clock.FormatOrder | src/pages/PublicBooking.jsx:48 | an earlier time renders as a string that sorts strictly earlier as text |
| Slots.ParseConfig | src/pages/PublicBooking.jsx:42-45 | the four configured times are read as dates, the end is at most 24:00, and the duration is kept as given |
| Slots.PointsFrom | src/pages/PublicBooking.jsx:47-52 | every point kept from time t on lies in [t, end), is outside the break, and the points strictly increase |
| Slots.Points | src/pages/PublicBooking.jsx:42-52 | no slots unless start and end are valid with start < end; otherwise every slot lies in [start, end) outside the break, strictly increasing |
| Slots.PointsFromOnGrid | src/pages/PublicBooking.jsx:47-51 | every kept point is t + k * duration for some k >= 0 |
| Slots.PointsFromComplete | src/pages/PublicBooking.jsx:47-52 | every grid point t + k * duration before the end and outside the break is kept |
| Slots.PointsExactly | src/pages/PublicBooking.jsx:47-52 | a time is a slot if and only if it is a grid point from start, before the end and outside the break, and each slot occurs exactly once |
| Slots.KeepStep | src/pages/PublicBooking.jsx:48-51 | one pass of the loop shows the current time unless it is in the break, then continues from the time one duration later |
| Slots.Render | src/pages/PublicBooking.jsx:48 | defines the rendering of the slot times as "HH:MM" strings (GenerateSlots is proved against it) |
| Slots.SlotStrings | src/pages/PublicBooking.jsx:39-54 | one five-character string for each generated slot time |
| Slots.SlotStringsIncreasing | src/pages/PublicBooking.jsx:39-54 | the slot strings are in strictly increasing text order, hence distinct |
| Slots.SlotStringsSkipBreak | src/pages/PublicBooking.jsx:49-50 | no slot string names a time inside [breakStart, breakEnd) |
| Slots.GenerateSlots | src/pages/PublicBooking.jsx:39-54 | the while loop (start at start, stop before end, step by duration, skip the break) returns exactly the rendered slot times of the configuration |
| Slots.DefaultParsed | src/pages/PublicBooking.jsx:32 | the default configuration reads as 540 to 1140 minutes, a break from 780 to 840, and 60-minute slots |
| Slots.DefaultPoints | src/pages/PublicBooking.jsx:32 | the default configuration yields the slot times 09:00 to 18:00 each hour, without 13:00 |
| Appointments.TimePrefix | src/pages/PublicBooking.jsx:75 | `slice(0, 5)` is a prefix of the stored time, five characters long or the whole shorter string |
| Appointments.Taken | src/pages/PublicBooking.jsx:74-75 | at most one entry per stored row, each the row time's first five characters at most |
| Appointments.PublicTaken | src/pages/PublicBooking.jsx:74-75 | a string is taken for a business on a date if and only if a non-cancelled row of that business on that date has a time starting with it |
| Appointments.DashboardTaken | src/pages/Dashboard.jsx:56-63 | a string is taken on a date if and only if a non-cancelled row of any business on that date has a time starting with it |
| Appointments.TakenIffAll | src/pages/PublicBooking.jsx:74-75 | the characterisation of TakenIff for every string at once |
| Appointments.TakenIff | src/pages/PublicBooking.jsx:74-75 | a string is taken if and only if some in-scope, same-date, non-cancelled row's time starts with it |
| Appointments.TakenAppend | src/pages/PublicBooking.jsx:92-93 | storing one more row adds its time prefix to the taken list exactly when it occupies a slot on that date |
| Appointments.PublicWithinDashboard | src/pages/Dashboard.jsx:56-63 | every hour the public page sees as taken for a business, the dashboard sees as taken too |
| Appointments.DashboardSeesOtherBusinesses | src/pages/Dashboard.jsx:56-63 | the converse fails: a row of another business greys out the hour on the dashboard but not on this business's public page |
| Appointments.Bookable | src/pages/PublicBooking.jsx:135-138 | at most the generated slots, and none of them taken |
| Appointments.BookableIff | src/pages/PublicBooking.jsx:135-138 | a slot can be picked if and only if it is generated and not in the taken list |
| Appointments.BookableKeepsOrder | src/pages/PublicBooking.jsx:135-138 | the pickable slots keep the order of the generated list |
| Appointments.BookableExample | src/pages/PublicBooking.jsx:135-138 | with 09:00, 10:00 and 11:00 generated and 10:00 taken, 09:00 and 11:00 remain, in that order |
| Appointments.CancelRows | src/pages/Dashboard.jsx:100-103 | the update keeps the number of rows and each row's id and time |
| Appointments.CancelOnlyStatus | src/pages/Dashboard.jsx:100-103 | cancelling keeps every row, changes no field but the status, and cancels exactly the rows with that id (plus those already cancelled) |
| Appointments.CancelIdempotent | src/pages/Dashboard.jsx:100-103 | cancelling the same id twice is the same as cancelling it once |
| Appointments.CancelFreesSlot | src/pages/Dashboard.jsx:100-106 | after a cancellation an hour stays taken only through a row with another id |
| Appointments.CancelOffered | src/pages/Dashboard.jsx:195 | defines the cancel-button test `status == "scheduled"` (CancelledNotOffered and HandleCancel state its use) |
| Appointments.CancelledNotOffered | src/pages/Dashboard.jsx:195 | a cancelled row is never offered the cancel button again |
| Ordering.SortBy | src/pages/Dashboard.jsx:41-42 | sorting keeps exactly the given rows, each as often as it occurs |
| Ordering.SortBySorted | src/pages/Dashboard.jsx:41-42 | the sorted rows are ordered by date, and by time within a date when the key asks for it |
| Backend.Table.Insert | src/pages/PublicBooking.jsx:84-87 | an accepted insert appends the row under a fresh id (ids stay distinct) and returns it; a refused one stores nothing and returns the error code and message |
| Backend.Table.Cancel | src/pages/Dashboard.jsx:100-103 | an accepted update sets the status of the rows with that id to cancelled, keeps ids distinct and returns no error; a refused one changes nothing and returns the store's message |
| PublicBooking.StepMove | src/pages/PublicBooking.jsx:99-167 | defines the step changes of the clicks when each booking is answered while step 2 is shown (its properties are StepRuns and StepMovesBounded) |
| PublicBooking.StepRuns | src/pages/PublicBooking.jsx:99-167 | along such a run from step 1, step 3 is reached only through step 2 |
| PublicBooking.StepMovesBounded | src/pages/PublicBooking.jsx:99-167 | along such a run the step rises by at most one at a time, and step 3 never goes to step 2 |
| PublicBooking.EffectiveConfig | src/pages/PublicBooking.jsx:32 | defines the configuration a found business gets: its own, or the default one (LoadBusiness states it) |
| PublicBooking.MyRows | src/pages/PublicBooking.jsx:60-63 | at most the stored rows, each with an id from the device list |
| PublicBooking.MyAppointmentsList | src/pages/PublicBooking.jsx:60-65 | the device's rows come ordered by date |
| PublicBooking.Request | src/pages/PublicBooking.jsx:84-86 | the booking row is scheduled, for the page's business, on the chosen date and time |
| PublicBooking.MyRowsIff | src/pages/PublicBooking.jsx:63 | a row is among the device's rows exactly when it is stored and its id is in the device list |
| PublicBooking.MyAppointmentsShape | src/pages/PublicBooking.jsx:56-69 | "my appointments" lists exactly the stored rows whose ids the device saved, ordered by date |
| PublicBooking.BookingPage.constructor | src/pages/PublicBooking.jsx:8-21 | the page starts loading, at step 1 of the booking tab, dated today, with empty lists and the saved device list |
| PublicBooking.BookingPage.LoadBusiness | src/pages/PublicBooking.jsx:28-35 | a found business is kept with its configuration or the default one; loading ends either way |
| PublicBooking.BookingPage.RecomputeSlots | src/pages/PublicBooking.jsx:39-54 | with a configuration present, the slot list becomes the generated slot strings; without one it is left alone |
| PublicBooking.BookingPage.RefreshTaken | src/pages/PublicBooking.jsx:71-78 | for a found business the taken list becomes the business's taken hours on the chosen date |
| PublicBooking.BookingPage.LoadMyAppointments | src/pages/PublicBooking.jsx:56-69 | a non-empty device list reloads "my appointments"; an empty one fetches nothing |
| PublicBooking.BookingPage.SwitchView | src/pages/PublicBooking.jsx:120-121 | the tabs switch the view once the page is shown |
| PublicBooking.BookingPage.ChooseDate | src/pages/PublicBooking.jsx:131 | the date changes only from step 1 |
| PublicBooking.BookingPage.PickSlot | src/pages/PublicBooking.jsx:135-138 | a slot is picked, moving step 1 to step 2, if and only if it is generated and not taken |
| PublicBooking.BookingPage.EditContact | src/pages/PublicBooking.jsx:154-155 | name and phone change only at step 2 |
| PublicBooking.BookingPage.Back | src/pages/PublicBooking.jsx:157 | "Atrás" takes step 2 back to step 1 and does nothing elsewhere |
| PublicBooking.BookingPage.SubmitBooking | src/pages/PublicBooking.jsx:80-87 | a booking is sent if and only if the page is at step 2 with name and phone filled and the chosen slot not in the taken list; the sent row is the page's business, date, slot and contact, and nothing else on the page changes |
| PublicBooking.BookingPage.AnswerBooking | src/pages/PublicBooking.jsx:87-100 | the answered booking leaves the in-flight list and the device list only grows. Success stores the row under a fresh id, appends that id to the device list, shows step 3 from whichever step is shown, and the booked hour is then taken for the booking's business and date. "23505" stores nothing, keeps the step and re-fetches the taken list of the booking's business and date. Any other error changes nothing |
| PublicBooking.StoredIsTaken | src/pages/PublicBooking.jsx:84-87 | once a booking row is stored, its hour is in the taken list of its business and date |
| PublicBooking.BackWhileBooking | src/pages/PublicBooking.jsx:80-157 | for any found business with a slot: submit at step 2, "Atrás" to step 1, and a success answer moves the page from step 1 straight to step 3 |
| PublicBooking.BookingPage.Booked | src/pages/PublicBooking.jsx:96-99 | the stored id is appended to the device list and the page shows step 3 |
| PublicBooking.BookingPage.ShowMyBookings | src/pages/PublicBooking.jsx:167 | "Ver mis citas" takes step 3 to step 1 on the appointments tab |
| Dashboard.AllSlotsAreDefault | src/pages/Dashboard.jsx:13-16 | the hard-coded hours are exactly what the slot generator makes from the default configuration |
| Dashboard.AllSlotsIncreasing | src/pages/Dashboard.jsx:13-16 | the hard-coded hours are in strictly increasing order |
| Dashboard.AllSlotsWithinHours | src/pages/Dashboard.jsx:13-16 | every hard-coded hour lies between 09:00 and 18:00 |
| Dashboard.AllSlotsSkipLunch | src/pages/Dashboard.jsx:13-16 | 13:00 is not among the hard-coded hours |
| Dashboard.SlotDisabled | src/pages/Dashboard.jsx:136-140 | defines a disabled hour button: its hour is taken or a booking is in flight (BeginBook sends only for an enabled one) |
| Dashboard.Visible | src/pages/Dashboard.jsx:44-47 | at most the stored rows, and for an account that is not admin only its own |
| Dashboard.Listing | src/pages/Dashboard.jsx:38-47 | the list is ordered by date and then time |
| Dashboard.VisibleIff | src/pages/Dashboard.jsx:44-47 | a row is visible exactly when it is stored and the account is an admin or owns it |
| Dashboard.ListingShape | src/pages/Dashboard.jsx:38-47 | the list holds exactly the visible rows (all rows, with multiplicity, for an admin), ordered by date and then time |
| Dashboard.Request | src/pages/Dashboard.jsx:78-85 | the booking row is scheduled, for the account, on the chosen date and hour, noted "Agendado por Admin" exactly for an admin and "Web Booking" otherwise |
| Dashboard.DashboardBookingUnseenByPublic | src/pages/Dashboard.jsx:78-85 | a stored dashboard booking adds its hour to the dashboard's taken hours but to no business's public taken hours |
| Dashboard.DashboardPage.constructor | src/pages/Dashboard.jsx:6-10 | the dashboard starts with empty lists, dated today, not loading, not admin |
| Dashboard.DashboardPage.CheckRole | src/pages/Dashboard.jsx:19-33 | the admin flag is raised for an "admin" profile and never lowered |
| Dashboard.DashboardPage.FetchAppointments | src/pages/Dashboard.jsx:36-53 | the appointment list becomes the listing of ListingShape for the given admin flag |
| Dashboard.DashboardPage.FetchTakenSlots | src/pages/Dashboard.jsx:56-64 | the taken list becomes the given date's taken hours over every business |
| Dashboard.DashboardPage.Refetch | src/pages/Dashboard.jsx:90-91 | both lists are fetched again from the current table, for the date and flag of the render that calls them |
| Dashboard.DashboardPage.Reload | src/pages/Dashboard.jsx:67-71 | the effect fetches both lists for the page's current date and admin flag |
| Dashboard.DashboardPage.ChooseDate | src/pages/Dashboard.jsx:129 | the date input sets the date |
| Dashboard.DashboardPage.BeginBook | src/pages/Dashboard.jsx:74-85 | a booking is sent if and only if the hour is a candidate whose button is enabled (not taken, not loading) and the dialog is confirmed; then loading is on, every button is disabled, and the click's admin flag is kept with the booking |
| Dashboard.DashboardPage.CompleteBook | src/pages/Dashboard.jsx:87-93 | loading ends; an accepted booking is stored under a fresh id and both lists are fetched again for the booking's date and the click's admin flag, whatever the page shows by then; an error changes neither the table nor the lists |
| Dashboard.DateChangeWhileBooking | src/pages/Dashboard.jsx:74-131 | booking 10:00 on one date, switching to another date and an accepted answer leave the page showing the new date with the old date's taken hours, while the new date has none |
| Dashboard.DashboardPage.HandleCancel | src/pages/Dashboard.jsx:97-107 | the update is sent if and only if the dialog is confirmed for a listed scheduled row. If the store accepts it, exactly that id's rows are cancelled; if it refuses, the table is unchanged. Either way the error is ignored and both lists are fetched again. Without a send nothing changes |
| Toasts.Without | src/components/Toast.jsx:27 | at most the earlier toasts, and none with the removed id |
| Toasts.WithoutIff | src/components/Toast.jsx:27 | a toast survives a removal exactly when it was there and has another id |
| Toasts.WithoutKeepsOrder | src/components/Toast.jsx:27 | the toasts that remain keep their relative order |
| Toasts.WithoutAppend | src/components/Toast.jsx:27 | removal from a concatenation is removal from each part |
| Toasts.WithoutAbsent | src/components/Toast.jsx:27 | removing an id no toast carries changes nothing |
| Toasts.WithoutTwice | src/components/Toast.jsx:27 | a second removal of the same id changes nothing |
| Toasts.AddThenRemove | src/components/Toast.jsx:17-28 | removing the id of a toast just added, when no earlier toast carries it, restores the earlier list |
| Toasts.ToastProvider.constructor | src/components/Toast.jsx:15 | the queue starts empty |
| Toasts.ToastProvider.AddToast | src/components/Toast.jsx:17-24 | exactly one toast is appended, with type 'info' and duration 4000 by default, and the earlier toasts are unchanged; a removal timer is scheduled if and only if the duration is positive |
| Toasts.ToastProvider.RemoveToast | src/components/Toast.jsx:26-28 | every toast with that id goes and the rest stay in order (see the Without lemmas) |
| Toasts.ToastProvider.ShowSuccess | src/components/Toast.jsx:31 | appends one toast of type success |
| Toasts.ToastProvider.ShowError | src/components/Toast.jsx:32 | appends one toast of type error |
| Toasts.ToastProvider.ShowWarning | src/components/Toast.jsx:33 | appends one toast of type warning |
| Toasts.ToastProvider.ShowInfo | src/components/Toast.jsx:34 | appends one toast of type info |

## Left out

- **Backend calls.** Supabase network calls, authentication and row-level security are not modelled. Whether the store accepts an insert is the `Verdict` parameter, so the uniqueness constraint itself, and therefore "two concurrent bookings, one wins", is not modelled.
- **Client cancellation.** `handleCancelClient` (src/pages/PublicBooking.jsx:103-108) is not modelled. It calls a server-side procedure whose lead-time policy is not visible, and then reloads the page.
- **Browser I/O.** `localStorage` JSON encoding, `alert` and `window.location.reload` are not modelled. `window.confirm` is a boolean parameter, and the device list is a sequence of ids.
- **Fetch failures.** Every fetch is modelled as succeeding. When a fetch fails, the taken lists keep their previous value (`if (data)`, src/pages/PublicBooking.jsx:75 and src/pages/Dashboard.jsx:63). The dashboard list does too (the logged error at src/pages/Dashboard.jsx:51). "My appointments" becomes empty instead (`data || []`, src/pages/PublicBooking.jsx:65).
- **Asynchrony.** Requests, responses and effects run one at a time, in the order the host calls them. The bookings of both pages are split into their request and their answer, so clicks between them are modelled. The other requests (fetches, the cancel update) are answered at once.
- **PublicBooking.StepMovesBounded:** like StepRuns, it covers only runs where each booking is answered while step 2 is still shown; the path below rises from step 1 to step 3 in one move.
- **PublicBooking.StepRuns:** it covers only runs where each booking is answered while step 2 is still shown. Nothing disables the form while the insert is pending. So submit at step 2, then "Atrás" to step 1, then a success answer moves the page from step 1 straight to step 3 (`PublicBooking.BackWhileBooking`). A slot picked again in the meantime is not the slot step 3 confirms.
- **Date parsing.** Only the strict "HH:MM" form of a configured time is read (`Clock.ParseTime`). Lenient parses such as "9:00" and the seconds forms "HH:MM:SS" count as invalid dates. Time zones, daylight-saving changes and locales are not modelled. The date strings are opaque.
- **Durations.** A duration is a whole number of minutes. Fractional durations, and a duration stored as text (where `+` would concatenate), are not modelled.
- **Slots.GenerateSlots:** it requires that a loop whose body runs has a positive duration. With a duration of zero or less and a valid start before the end, the source loops forever.
- **PublicBooking.BookingPage.LoadBusiness:** it requires the found business's configuration to meet the same condition, so the slot effect can always finish.
- **Dashboard.DashboardPage.CompleteBook:** an answer without a pending booking only clears `loading`. The source has no such case.
- **Date picker limit.** The `min` attribute of the date inputs, which stops dates before today, is not modelled. Today's date is a constructor parameter.
- **Joined columns.** The `profiles(email, full_name)` join of the dashboard query and the rendering of rows are not modelled.
- **Toast timers.** The timers only call `RemoveToast` and are returned as `Timer` values. The progress bar, the per-toast countdown and the rendering (src/components/Toast.jsx:37 onwards) are not modelled.
- **`useToast` outside a provider.** The error that `useToast` throws outside a provider (src/components/Toast.jsx:6-12) is not modelled.
- **Other files.** Login.jsx, App.js, LoadingSkeleton.jsx, EmptyState.jsx and supabase.js are not part of this model: they hold authentication, routing, markup and configuration.
