/** Concrete states on which the handlers, as written, break the ledger
    invariant or refuse a move the invariant allows.  Day 0, minute 600
    is 10:00; barber 1; service 1 lasts 60 minutes, service 2 lasts 30. */
module Findings {
  import opened Base
  import opened Slots
  import opened Tables
  import opened SlotCheck
  import opened Ledger
  import Schedules

  const Catalog: map<int, Servicio> :=
    map[1 := Servicio("corte y barba", "", 30000, 60, true), 2 := Servicio("corte", "", 20000, 30, true)]

  const At1000: SlotKey := SlotKey(1, 0, 20)
  const At1030: SlotKey := SlotKey(1, 0, 21)
  const At1100: SlotKey := SlotKey(1, 0, 22)

  /** The only keys of barber 1 on the grid in buckets 20..21 are 10:00 and 10:30. */
  lemma TwoRows(k: SlotKey)
    requires InSpan(k, 1, 600, 2)
    ensures k == At1000 || k == At1030
  {
    BucketDeterminesKey(k, SlotKey(1, 0, Bucket(k)));
  }

  /** A 60-minute booking at 10:00 holding both rows. */
  const Booked: map<SlotKey, Horario> := map[At1000 := Horario(1, false), At1030 := Horario(2, false)]
  const Long: map<int, Reserva> := map[1 := Reserva(7, 1, 1, 600, Confirmada)]
  const Late: Reserva := Reserva(8, 1, 2, 630, Confirmada)

  /** The router's booking check accepts a 30-minute booking at 10:30 while
      the 10:00 booking still holds that row: it ignores `disponible` and
      only looks for reservations starting exactly at 10:30.  Afterwards
      two active reservations hold the 10:30 row.  The monolith's check
      refuses the same booking. */
  lemma {:induction false} RouterCreateDoubleBooks()
    ensures Sound(Booked, Long, Catalog)
    ensures SpanUsable(Booked, Long, 1, 630, SpanOf(Late, Catalog), RouterCreateRule)
    ensures !Sound(SetSpan(Booked, 1, 630, SpanOf(Late, Catalog), false), Long[2 := Late], Catalog)
    ensures !SpanUsable(Booked, Long, 1, 630, SpanOf(Late, Catalog), MonolithCreateRule)
  {
    forall id, k | Holds(Long, Catalog, id, k)
      ensures k in Booked && !Booked[k].disponible
    {
      TwoRows(k);
    }
    assert KeyAt(1, SlotTime(630, 0)) == At1030;
    var after := Long[2 := Late];
    assert Holds(after, Catalog, 1, At1030) && Holds(after, Catalog, 2, At1030);
    assert !SlotUsable(Booked, Long, 1, SlotTime(630, 0), MonolithCreateRule);
  }

  /** The same 60-minute booking, with 11:00 free. */
  const Grid: map<SlotKey, Horario> := Booked[At1100 := Horario(3, true)]

  /** Moving the 10:00 booking half an hour later is refused with "slot 1
      unavailable": its new first row is the reservation's own 10:30 row,
      and the row query demands `disponible = true` without excluding the
      reservation's own rows.  The intended check (own rows count as free)
      accepts the move. */
  lemma {:induction false} ReprogramRefusesOwnRows()
    ensures Sound(Grid, Long, Catalog)
    ensures forall j :: Holds(Long, Catalog, j, At1030) ==> j == 1
    ensures FirstFailing(Grid, Long, 1, 630, 2, ReprogramRule(1), 0)
    ensures SlotFailure(Grid, 1, SlotTime(630, 0), ReprogramRule(1), 0) == SlotUnavailable(1)
    ensures MoveUsable(Grid, Long, Catalog, 1, 630)
  {
    forall id, k | Holds(Long, Catalog, id, k)
      ensures k in Grid && !Grid[k].disponible
    {
      TwoRows(k);
    }
    assert KeyAt(1, SlotTime(630, 0)) == At1030;
    assert KeyAt(1, SlotTime(630, 1)) == At1100;
    forall i | 0 <= i < SpanOf(Long[1], Catalog)
      ensures MoveSlotOk(Grid, Long, Catalog, 1, SlotTime(630, i))
    {
      assert i == 0 || i == 1;
    }
  }

  /** A cancelled 30-minute booking at 10:00 and a confirmed one that took its row. */
  const Rebooked: map<SlotKey, Horario> := map[At1000 := Horario(1, false)]
  const Twice: map<int, Reserva> := map[1 := Reserva(7, 1, 2, 600, Cancelada), 2 := Reserva(8, 1, 2, 600, Confirmada)]

  /** Cancelling reservation 1 again is accepted (no handler looks at the
      current estado) and releases the 10:00 row that reservation 2 holds. */
  lemma {:induction false} RecancelFreesHeldRow()
    ensures Sound(Rebooked, Twice, Catalog)
    ensures !Sound(SetSpan(Rebooked, 1, 600, SpanOf(Twice[1], Catalog), true),
                   Twice[1 := Twice[1].(estado := Cancelada)], Catalog)
  {
    forall id, k | Holds(Twice, Catalog, id, k)
      ensures k in Rebooked && !Rebooked[k].disponible && id == 2
    {
      BucketDeterminesKey(k, At1000);
    }
    var h' := SetSpan(Rebooked, 1, 600, SpanOf(Twice[1], Catalog), true);
    var rs' := Twice[1 := Twice[1].(estado := Cancelada)];
    assert InSpan(At1000, 1, 600, SpanOf(Twice[1], Catalog));
    assert Holds(rs', Catalog, 2, At1000) && h'[At1000].disponible;
  }

  /** Barber 1's account is user 9. */
  const Staff: map<int, Barbero> := map[1 := Barbero.Barbero(9, "manana", "activo", 0, "General")]

  /** The owning barber may set a held row available again: the toggle
      looks only at ownership, so the 10:30 row of the confirmed 10:00
      booking becomes free while the booking still holds it. */
  lemma {:induction false} ToggleFreesHeldRow()
    ensures Sound(Booked, Long, Catalog)
    ensures Schedules.OwnsRow(Booked, Staff, 2, Actor(9, Rol.Barbero))
    ensures !Sound(MarkId(Booked, 2, true), Long, Catalog)
  {
    forall id, k | Holds(Long, Catalog, id, k)
      ensures k in Booked && !Booked[k].disponible
    {
      TwoRows(k);
    }
    assert Booked[At1030].id == 2 && At1030.barbero in Staff;
    assert Holds(Long, Catalog, 1, At1030);
  }

  /** Lengthening a booked service to 90 minutes (accepted by the service
      update) makes the 10:00 booking span the free 11:00 row, which it
      never claimed; later cancels and moves release the longer span. */
  lemma {:induction false} DurationChangeBreaksLedger()
    ensures Sound(Grid, Long, Catalog)
    ensures !Sound(Grid, Long, Catalog[1 := Catalog[1].(duracion := 90)])
  {
    forall id, k | Holds(Long, Catalog, id, k)
      ensures k in Grid && !Grid[k].disponible
    {
      TwoRows(k);
    }
    var longer := Catalog[1 := Catalog[1].(duracion := 90)];
    assert SpanOf(Long[1], longer) == 3;
    assert Holds(Long, longer, 1, At1100) && Grid[At1100].disponible;
  }

  /** The cancelled and the confirmed 10:00 bookings, with 11:00 free. */
  const Spare: map<SlotKey, Horario> := Rebooked[At1100 := Horario(3, true)]

  /** Reprogramming the cancelled reservation 1 to 11:00 passes every check
      (no handler looks at its estado) and releases the 10:00 row that the
      confirmed reservation 2 holds. */
  lemma {:induction false} ReprogramInactiveFreesHeldRow()
    ensures Sound(Spare, Twice, Catalog)
    ensures SpanUsable(Spare, Twice, 1, 660, SpanOf(Twice[1], Catalog), ReprogramRule(1))
    ensures var n := SpanOf(Twice[1], Catalog);
      !Sound(SetSpan(SetSpan(Spare, 1, 600, n, true), 1, 660, n, false),
             Twice[1 := Twice[1].(inicio := 660)], Catalog)
  {
    forall id, k | Holds(Twice, Catalog, id, k)
      ensures k in Spare && !Spare[k].disponible && id == 2
    {
      BucketDeterminesKey(k, At1000);
    }
    assert KeyAt(1, SlotTime(660, 0)) == At1100;
    var n := SpanOf(Twice[1], Catalog);
    var h' := SetSpan(SetSpan(Spare, 1, 600, n, true), 1, 660, n, false);
    var rs' := Twice[1 := Twice[1].(inicio := 660)];
    assert InSpan(At1000, 1, 600, n) && !InSpan(At1000, 1, 660, n);
    assert Holds(rs', Catalog, 2, At1000) && h'[At1000].disponible;
  }
}
