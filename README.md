# Barber-shop booking ledger, modelled in Dafny

This project models the backend of a barber-shop booking service. Clients book a
barber for a service. The service's duration decides how many consecutive
half-hour **horario** rows (slots) of that barber the booking claims. Cancelling,
completing and reprogramming a **reserva** release the rows, leave them, or
move them. An availability view shows a barber's day. Small catalog, payment,
barber and role handlers feed the ledger.

How the source maps to the model:

- Time is counted in whole minutes. Day `d`, minute `m` is `1440*d + m`.
- The horario table is a map from `SlotKey(barbero, day, index)` to
  `Horario(id, disponible)`. `KeyAt(b, t)` is the row that the query
  `hora_inicio <= t < hora_fin` selects on the half-hour grid.
- The other tables are maps from serial ids to rows. All tables live in one
  `Db` object whose fields the handlers reassign.
- Each HTTP handler is a method that returns `Ok` or `Err(failure)`. Every
  failure maps to the HTTP status the handler sends, and on failure the
  database is unchanged.
- The claim loop (`UPDATE ... WHERE id = slotId`) and the release loop
  (`UPDATE ... WHERE barbero, fecha, time match`) are methods of `Db`. Each
  is proved equal to setting exactly the span's rows (`SetSpan`). This
  holds when every loop reads the slot's date and time in one zone, which
  is true everywhere except the router's booking on a server outside UTC.
- The router file (`backend/src/routes/reservations.ts`) and the monolithic
  server (`backend/src/index.ts`) carry the same reservation handlers. In
  the model only their booking check differs. `Reservations.Create` takes a
  `Variant` for that; every other handler is one method whose contract
  covers both copies. The router's booking also reads each slot's time of
  day in the server's local zone. The model does not capture this (see
  "## Left out").
- The ledger invariant `Ledger.Sound` says two things:
  - every row held by an active (pending or confirmed) reservation exists and
    is marked unavailable;
  - no row is held by two active reservations.

  The lemmas in `Ledger` show which handlers keep it: booking with the
  monolith's check, cancelling an active reservation, completing, and
  reprogramming an active reservation under the intended check.
  `Findings` gives concrete states where the code as written breaks it:
  - booking through the router's check;
  - cancelling or reprogramming a reservation that is no longer active;
  - the barber's manual toggle (`Schedules.SetDisponibilidad`), which can
    set a held row available;
  - a service update that changes the duration of a booked service, after
    which the span recomputed by cancel and reprogram is not the one claimed.

## Model

| member | source | states |
|---|---|---|
| Base.StatusCode | backend/src/routes/reservations.ts:82-143 | every failure is one of 400/403/404/409/500, and 409 exactly for the conflict replies |
| Base.ParseRol | backend/src/index.ts:181-183 | a role is accepted iff it is `cliente`, `barbero` or `super_admin`, and the parsed role prints back to the input |
| Base.ParseRolName | backend/src/index.ts:181 | every role's name passes the whitelist and parses back to that role |
| Base.Listing | backend/src/routes/services.ts:10 | a filtered `ORDER BY id` listing: only kept rows of the table, strictly increasing ids, every kept id of the range present |
| Slots.NumSlots | backend/src/routes/reservations.ts:107 | `ceil(d/30)`: `30(n-1) < d <= 30n` for positive d, no slot otherwise |
| Slots.NumSlotsPositive | backend/src/routes/services.ts:27-33 | a positive duration needs at least one slot, and exactly one when it is at most 30 minutes |
| Slots.KeyAt | backend/src/routes/reservations.ts:119-124 | the row selected for time t is on the grid and lies in the half-hour bucket t/30 |
| Slots.BucketDeterminesKey | backend/src/routes/reservations.ts:119-124 | one barber's grid rows in the same bucket are the same row, so at most one row matches a time |
| Slots.SpanSlot | backend/src/routes/reservations.ts:111-113 | slot i of a span (start + 30i) lies in the span iff 0 <= i < n, in bucket start/30 + i |
| Slots.SpanKey | backend/src/routes/reservations.ts:111-113 | every row of a span is the row of one of its slots |
| Slots.SpanSlotsDistinct | backend/src/routes/reservations.ts:111-113 | distinct slots of a booking fall into distinct rows |
| Slots.SetSpan | backend/src/routes/reservations.ts:235-246 | the rows of the span get the new flag; every other row and every id is unchanged |
| Slots.MarkIds | backend/src/routes/reservations.ts:158-160 | exactly the rows whose id was collected get the new flag |
| Slots.MarkIdOneRow | backend/src/routes/schedules.ts:117-120 | with unique ids, an update by id changes exactly one row |
| Slots.ClaimIsSpan | backend/src/routes/reservations.ts:146-160 | marking the collected ids is the same as marking exactly the rows of the span |
| Slots.SpanIdsAfterSet | backend/src/routes/reservations.ts:491-513 | the ids collected for the new span still name its rows after the old span is released |
| Tables.Db.Claim | backend/src/routes/reservations.ts:158-160 | the claim loop leaves the table equal to `MarkIds(old, ids, false)` |
| Tables.Db.Release | backend/src/routes/reservations.ts:235-246 | the release loop leaves the table equal to `SetSpan(old, barber, start, n, true)` |
| SlotCheck.SlotFailure | backend/src/routes/reservations.ts:128-144 | a failing slot is reported with 409 naming the 1-based slot j+1; it is the "no row" reply exactly when the row check fails, else the "reservation exists" reply |
| SlotCheck.Probe | backend/src/routes/reservations.ts:109-147 | succeeds iff every slot passes, returning the n row ids in slot order; otherwise names the first failing slot |
| SlotCheck.ReprogramRule | backend/src/routes/reservations.ts:477-485 | the reprogram check blocks on exactly the non-cancelled reservations other than the one being moved |
| SlotCheck.MonolithStricter | backend/src/index.ts:645-664 | a slot accepted by the monolith's check is accepted by the router's check |
| Reservations.CreateRule | backend/src/index.ts:645-660 | router: any covering row, pending/confirmed block; monolith: row must be disponible, every non-cancelled reservation blocks |
| Reservations.BookingGuard | backend/src/routes/reservations.ts:80-105 | all guards pass iff the fields are present, start > now, the barber exists and is not inactivo, and the service exists; 400 for a missing field or a past start, 404 for an unknown barber, 409 for an inactive one, then 404 for an unknown service |
| Reservations.Create | backend/src/index.ts:603-720 | guard failures and slot failures change nothing; success iff all slots pass; one reservation inserted under a fresh id, exactly the span's rows made unavailable; the monolith variant keeps `Sound` |
| Reservations.CancelAndRelease | backend/src/routes/reservations.ts:229-246 | estado becomes cancelada and exactly the span from the stored start is released; keeps `Sound` when the reservation was active |
| Reservations.CancelByClient | backend/src/routes/reservations.ts:202-278 | 404 unless owner, 400 under 24 hours ahead, 500 if the service row is missing; otherwise cancelled and its span released |
| Reservations.Complete | backend/src/routes/reservations.ts:281-308 | only the assigned barber (403 otherwise); estado becomes completada and the horario table is untouched; keeps `Sound` |
| Reservations.CancelByBarber | backend/src/routes/reservations.ts:311-381 | only the assigned barber (403), no time window; cancelled and the same span released |
| Reservations.CancelByAdmin | backend/src/index.ts:904-943 | administrators only; 404 only for a missing reservation, no time window; cancelled and span released |
| Reservations.Reprogram | backend/src/index.ts:946-1046 | 400 without a new start, 404 unless owner, 400 under 24 hours ahead; any slot failure changes nothing; success releases the old span, moves the start, claims exactly the new span |
| Ledger.CheckedRowFree | backend/src/index.ts:645-654 | every row of a span that passed a disponible-demanding check exists and was available |
| Ledger.CreatePreservesSound | backend/src/index.ts:637-680 | booking after the monolith's check keeps the ledger invariant |
| Ledger.CancelPreservesSound | backend/src/index.ts:746-766 | cancelling an active reservation keeps the ledger invariant |
| Ledger.CompletePreservesSound | backend/src/index.ts:817-821 | completing a reservation keeps the ledger invariant |
| Ledger.AsWrittenMoveIsUsable | backend/src/index.ts:978-1008 | a move the handler's check accepts also passes the intended check |
| Ledger.ReprogramPreservesSound | backend/src/index.ts:1010-1033 | release old span, move start, claim new span keeps the ledger invariant whenever the intended check passes |
| Findings.RouterCreateDoubleBooks | backend/src/routes/reservations.ts:116-144 | a sound state where the router's check accepts a booking whose row another active booking holds, breaking the invariant; the monolith's check refuses it |
| Findings.ReprogramRefusesOwnRows | backend/src/routes/reservations.ts:458-475 | moving a booking 30 minutes later is refused as "slot 1 unavailable" although the intended check accepts it |
| Findings.RecancelFreesHeldRow | backend/src/routes/reservations.ts:229-246 | re-cancelling a cancelled reservation frees a row that an active reservation holds |
| Findings.ReprogramInactiveFreesHeldRow | backend/src/routes/reservations.ts:437-502 | a cancelled reservation passes the reprogram checks, and moving it frees a row that an active reservation holds |
| Findings.ToggleFreesHeldRow | backend/src/routes/schedules.ts:107-120 | the owning barber may set a held row available, which breaks the ledger invariant |
| Findings.DurationChangeBreaksLedger | backend/src/routes/services.ts:61-64 | lengthening a booked service makes its reservation span a free row it never claimed |
| Schedules.DayRows | backend/src/routes/schedules.ts:13-15 | the barber's rows of one day, in strictly increasing hora_inicio, each matching its table row, none missing |
| Schedules.DayBookings | backend/src/routes/schedules.ts:19-26 | a booking is counted iff it comes from a pending or confirmed reservation of that barber starting that day |
| Schedules.EffectiveDuration | backend/src/routes/schedules.ts:40 | a missing duration counts as 30 minutes, which is one slot |
| Schedules.Covers | backend/src/routes/schedules.ts:41-55 | the inner loop answers exactly whether some half-hour start of the booking falls on the row's time |
| Schedules.Availability | backend/src/routes/schedules.ts:31-65 | same length and order, only `disponible` rewritten, true iff not past, not covered by an active booking, and stored flag set |
| Schedules.DefaultCoversOne | backend/src/routes/schedules.ts:40-41 | a booking without a duration covers exactly its own start time |
| Schedules.CoversConsecutive | backend/src/routes/schedules.ts:41-54 | within one day a booking covers exactly the ceil(d/30) consecutive half-hour starts from its start |
| Schedules.BookedSlotShownTaken | backend/src/routes/schedules.ts:38-59 | every half-hour start of an active reservation that day is shown taken, whatever the stored flag |
| Schedules.HeldRowNotShown | backend/src/routes/schedules.ts:59 | with the ledger sound, no row an active reservation holds is shown available |
| Schedules.SetDisponibilidad | backend/src/routes/schedules.ts:100-127 | 403 unless the caller is the barber owning the row; otherwise exactly that row's flag is set |
| Services.ActiveServices | backend/src/routes/services.ts:8-16 | only active services, in id order, and every active service listed |
| Services.NewServiceGuard | backend/src/routes/services.ts:23-33 | passes iff nombre, a positive precio and a positive duracion are given; otherwise 400 |
| Services.CreateService | backend/src/index.ts:215-241 | administrators only; on the guards' success one active row under a fresh id, needing at least one slot |
| Services.UpdateService | backend/src/routes/services.ts:48-75 | positivity checks before the lookup (400), 404 for an unknown id, otherwise all columns overwritten |
| Services.DeleteService | backend/src/routes/services.ts:78-96 | 404 for an unknown id; otherwise the row is kept and only `activo` cleared |
| Services.DeletedNotListed | backend/src/routes/services.ts:82-84 | a deleted service keeps its row and drops out of the listing |
| Payments.ParseMetodo | backend/src/routes/payments.ts:17-19 | a method is accepted iff it is `efectivo` or `tarjeta`, and prints back to the input |
| Payments.MetodoRoundTrip | backend/src/index.ts:1121 | every method's name parses back to it |
| Payments.Pay | backend/src/index.ts:1112-1154 | 400 for missing fields or an unknown method, 404 unless the caller's confirmed reservation, 409 if already paid; otherwise one payment charging the service's price appended |
| Payments.SecondPaymentRefused | backend/src/routes/payments.ts:34-37 | after a payment is appended its reservation counts as paid, the condition under which `Pay` answers 409 |
| Payments.PayTwice | backend/src/routes/payments.ts:34-37 | after `Pay` accepts a payment, a second `Pay` for the same reservation answers 409 and records nothing; a refused first request gets the same reply again |
| Barbers.ActiveBarbers | backend/src/routes/barbers.ts:9-23 | only barbers not inactivo with a user row, in id order, none missing |
| Barbers.Split | backend/src/routes/barbers.ts:46 | at least one piece, no piece holds a space, joining with spaces gives the input back |
| Barbers.SplitName | backend/src/routes/barbers.ts:46-48 | nombre is the text before the first space and apellido the rest (empty when there is no space) |
| Barbers.NewUsuario | backend/src/routes/barbers.ts:50-53 | the user row has rol barbero, the given e-mail, the split name and a phone only when given |
| Barbers.RegisteredBarberListed | backend/src/routes/barbers.ts:50-62 | a newly registered barber under the next serial id is in the public list and passes the booking guard's barber checks |
| Barbers.Enroll | backend/src/routes/barbers.ts:50-62 | the usuario and barbero rows are inserted under the next serial ids, and the new barber is in the public list, linked to the new user |
| Barbers.RegisterBarber | backend/src/routes/barbers.ts:26-76 | 403 non-admin, 400 without name/email/password, 409 for a used e-mail with nothing written; otherwise one user and one barber row, the barber under the next serial id and listed, e-mails staying unique |
| Barbers.DeactivateBarber | backend/src/routes/barbers.ts:114-134 | 404 for an unknown id; otherwise the row is kept and only estado becomes inactivo |
| Barbers.DeactivatedNotBookable | backend/src/routes/barbers.ts:125 | a deactivated barber is refused by the booking guard with 409 and is not listed |
| Barbers.UpdateBarber | backend/src/routes/barbers.ts:137-168 | 404 unknown, 409 inactive, 403 unless administrator or the barber themself; otherwise the four columns set |
| Users.ChangeRole | backend/src/index.ts:176-199 | administrators only; 400 for a role outside the whitelist, 404 for an unknown user; otherwise only the role changes |

## Left out

- Authentication (token checking, bcrypt password hashing) is not part of this model. The caller arrives as a trusted `Actor(id, rol)`, and `requireRole` is the role test at the head of each handler.
- E-mail sending, the `notificaciones` inserts and console logging are left out. They never change a handler's reply.
- Clock and calendar: `now` is a parameter. Dates, time zones, ISO strings and the floating hour difference are integer minutes. The 24-hour rule is `start - now < 1440`.
- Reservations.Create: for the router variant, the model reads each slot's date and time of day in one zone. The router's booking loop (backend/src/routes/reservations.ts:114-115) takes the date in UTC (`toISOString`) but the time of day in the server's local zone (`toTimeString`). Every release loop uses UTC for both (backend/src/routes/reservations.ts:238-239, 343-344, 408-409, 494-495), and so does the monolith's booking (backend/src/index.ts:641-642). On a server outside UTC, the router therefore checks and claims different rows from the ones cancel and reprogram later free, and `Slots.ClaimIsSpan` does not describe it.
- Horario generation (`generar_horarios_barbero` and `POST /generar`) is left out. That database function is not part of this model. The grid is an input to `Db`.
- The read-only list handlers for reservations (`/mis`, `/barberia`, the admin list) and statistics are plain SQL joins and are left out.
- The legacy barber creation (`POST /barberos` with an existing user) and the profile endpoints are left out as outside the ledger.
- Reservations.Create: the id of the new reservation is the next serial. The schema is not part of this model, so the column defaults are taken as estado `confirmada`, service `activo = true` and barber estado `activo`.
- Concurrency is left out. Each handler is one atomic step, although the source runs separate queries without a transaction. Races between two bookings are not modelled.
- Schedules.Availability: the reservations query runs per calendar day in the America/Bogota zone, while slot times are compared as server-local `HH:MM`. The model uses one zone and minute-of-day comparison.
- Services.UpdateService, Barbers.UpdateBarber: absent body fields are written as NULL by the source. The model takes every field as present.
- Barbers.RegisterBarber: the 400 path returns with the transaction still open. Nothing has been written there, so the model just returns.
- Schedules.SetDisponibilidad: a non-boolean `disponible` body value is not modelled. The flag is a `bool`.
- A second admin cancel handler in the router file (`PUT /:id/cancelar`, backend/src/routes/reservations.ts:384) is registered after the client cancel on the same path, so it never runs. `Reservations.CancelByAdmin` models the reachable copy in backend/src/index.ts.
- Schedules.SetDisponibilidad, Services.UpdateService: modelled as written, and both can break the ledger invariant (`Findings.ToggleFreesHeldRow`, `Findings.DurationChangeBreaksLedger`). No corrected version is given, because the code does not show which rule was meant: refusing the change, or re-claiming the rows.
- Failures of the database itself (the generic 500 replies) are left out. `ServerError` covers only the case where a handler dereferences a service row that is missing.

## Findings

| source | as written | input that shows it | evidently intended | confidence | as-written member | corrected member |
|---|---|---|---|---|---|---|
| backend/src/routes/reservations.ts:116-144 | the router's booking check takes any covering row, ignoring `disponible`, and only looks for reservations starting exactly at each slot time | a confirmed 60-minute booking at 10:00 holds the 10:30 row; a 30-minute booking at 10:30 is accepted and two active reservations hold the 10:30 row | refuse a slot whose row is taken, as the monolith's check does (`disponible = true`) | not executed | Findings.RouterCreateDoubleBooks | Ledger.CreatePreservesSound |
| backend/src/routes/reservations.ts:464-475 | the reprogram row query demands `disponible = true` and does not exempt the reservation's own rows | moving a 60-minute booking from 10:00 to 10:30 (11:00 free) is refused with "slot 1 unavailable" | the reservation's own rows count as free when it is moved | not executed | Findings.ReprogramRefusesOwnRows | Ledger.ReprogramPreservesSound |
| backend/src/routes/reservations.ts:437-502 | reprogram does not look at the current estado, so a cancelled or completed reservation is moved and its old span released | reservation 1 (cancelled, 10:00) and reservation 2 (confirmed, 10:00, same row); moving 1 to 11:00 frees the row 2 holds | move only a reservation that is still active | not executed | Findings.ReprogramInactiveFreesHeldRow | Ledger.ReprogramPreservesSound |
| backend/src/routes/reservations.ts:229-246 | cancel does not look at the current estado, so an already cancelled reservation is cancelled again and its span released | reservation 1 (cancelled, 10:00) and reservation 2 (confirmed, 10:00, same row); cancelling 1 again frees the row 2 holds | release only the rows of a reservation that is still active | not executed | Findings.RecancelFreesHeldRow | Ledger.CancelPreservesSound |
