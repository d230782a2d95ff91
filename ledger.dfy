/** The ledger's consistency invariant over the slot and reservation
    tables, and which reservation handlers keep it.  A reservation
    "holds" the horario rows of its span while it is pending or
    confirmed; the span is recomputed from the service's current
    duration, as the cancel and reprogram handlers do. */
module Ledger {
  import opened Base
  import opened Slots
  import opened Tables
  import opened SlotCheck

  /** Number of slots reservation r spans, from its service's duration. */
  function SpanOf(r: Reserva, sv: map<int, Servicio>): nat
    requires r.servicio in sv
  {
    NumSlots(sv[r.servicio].duracion)
  }

  /** Active reservation `id` occupies row k. */
  ghost predicate Holds(rs: map<int, Reserva>, sv: map<int, Servicio>, id: int, k: SlotKey)
  {
    id in rs && Active(rs[id].estado) && rs[id].servicio in sv &&
    InSpan(k, rs[id].barbero, rs[id].inicio, SpanOf(rs[id], sv))
  }

  /** Every row an active reservation holds exists and is marked
      unavailable, and no row is held by two active reservations. */
  ghost predicate Sound(h: map<SlotKey, Horario>, rs: map<int, Reserva>, sv: map<int, Servicio>)
  {
    (forall id, k {:trigger Holds(rs, sv, id, k)} :: Holds(rs, sv, id, k) ==> k in h && !h[k].disponible) &&
    (forall id1, id2, k {:trigger Holds(rs, sv, id1, k), Holds(rs, sv, id2, k)} ::
       Holds(rs, sv, id1, k) && Holds(rs, sv, id2, k) ==> id1 == id2)
  }

  /** Under a rule that demands disponible rows, every row of a span that
      passed the check exists and was available. */
  lemma {:induction false} CheckedRowFree(h: map<SlotKey, Horario>, rs: map<int, Reserva>, barbero: int, start: int,
                                          n: nat, rule: SlotRule, k: SlotKey)
    requires rule.needsDisponible && SpanUsable(h, rs, barbero, start, n, rule)
    requires InSpan(k, barbero, start, n)
    ensures k in h && h[k].disponible
  {
    SpanKey(k, barbero, start, n);
    var i := Bucket(k) - start / SlotMinutes;
    assert SlotUsable(h, rs, barbero, SlotTime(start, i), rule);
  }

  /** Booking with the monolith's check keeps the invariant: the new
      reservation's rows were all available, so no active reservation
      held any of them, and they are now all unavailable. */
  lemma {:induction false} CreatePreservesSound(h: map<SlotKey, Horario>, rs: map<int, Reserva>, sv: map<int, Servicio>,
                                                id: int, res: Reserva)
    requires Sound(h, rs, sv) && id !in rs && res.servicio in sv
    requires SpanUsable(h, rs, res.barbero, res.inicio, SpanOf(res, sv), MonolithCreateRule)
    ensures Sound(SetSpan(h, res.barbero, res.inicio, SpanOf(res, sv), false), rs[id := res], sv)
  {
    var n := SpanOf(res, sv);
    var h', rs' := SetSpan(h, res.barbero, res.inicio, n, false), rs[id := res];
    forall j, k | Holds(rs', sv, j, k)
      ensures k in h' && !h'[k].disponible
    {
      if j == id {
        CheckedRowFree(h, rs, res.barbero, res.inicio, n, MonolithCreateRule, k);
      } else {
        assert Holds(rs, sv, j, k);
      }
    }
    forall j1, j2, k | Holds(rs', sv, j1, k) && Holds(rs', sv, j2, k)
      ensures j1 == j2
    {
      if j1 != id && j2 != id {
        assert Holds(rs, sv, j1, k) && Holds(rs, sv, j2, k);
      } else if j1 != j2 {
        var other := if j1 == id then j2 else j1;
        assert Holds(rs, sv, other, k);
        CheckedRowFree(h, rs, res.barbero, res.inicio, n, MonolithCreateRule, k);
      }
    }
  }

  /** Cancelling an active reservation keeps the invariant: no other
      active reservation held its rows, so releasing them frees nothing
      that is still held. */
  lemma {:induction false} CancelPreservesSound(h: map<SlotKey, Horario>, rs: map<int, Reserva>, sv: map<int, Servicio>, id: int)
    requires Sound(h, rs, sv) && id in rs && rs[id].servicio in sv
    requires Active(rs[id].estado)
    ensures Sound(SetSpan(h, rs[id].barbero, rs[id].inicio, SpanOf(rs[id], sv), true),
                  rs[id := rs[id].(estado := Cancelada)], sv)
  {
    var r := rs[id];
    var n := SpanOf(r, sv);
    var h', rs' := SetSpan(h, r.barbero, r.inicio, n, true), rs[id := r.(estado := Cancelada)];
    forall j, k | Holds(rs', sv, j, k)
      ensures k in h' && !h'[k].disponible
    {
      assert j != id && Holds(rs, sv, j, k);
      assert !Holds(rs, sv, id, k);
    }
    forall j1, j2, k | Holds(rs', sv, j1, k) && Holds(rs', sv, j2, k)
      ensures j1 == j2
    {
      assert Holds(rs, sv, j1, k) && Holds(rs, sv, j2, k);
    }
  }

  /** Completing a reservation touches no row and keeps the invariant. */
  lemma CompletePreservesSound(h: map<SlotKey, Horario>, rs: map<int, Reserva>, sv: map<int, Servicio>, id: int)
    requires Sound(h, rs, sv) && id in rs
    ensures Sound(h, rs[id := rs[id].(estado := Completada)], sv)
  {
    var rs' := rs[id := rs[id].(estado := Completada)];
    forall j, k | Holds(rs', sv, j, k)
      ensures Holds(rs, sv, j, k)
    {
    }
  }

  /** The intended reprogram check for slot time t of reservation id: a
      row covers t and is either available or one of the reservation's own
      rows, and no other non-cancelled reservation starts at t. */
  ghost predicate MoveSlotOk(h: map<SlotKey, Horario>, rs: map<int, Reserva>, sv: map<int, Servicio>, id: int, t: int)
    requires id in rs && rs[id].servicio in sv
  {
    var r := rs[id];
    var k := KeyAt(r.barbero, t);
    k in h && (h[k].disponible || InSpan(k, r.barbero, r.inicio, SpanOf(r, sv))) &&
    !Clash(rs, r.barbero, t, ReprogramRule(id))
  }

  ghost predicate MoveUsable(h: map<SlotKey, Horario>, rs: map<int, Reserva>, sv: map<int, Servicio>, id: int, start: int)
    requires id in rs && rs[id].servicio in sv
  {
    forall i :: 0 <= i < SpanOf(rs[id], sv) ==> MoveSlotOk(h, rs, sv, id, SlotTime(start, i))
  }

  /** The check the handlers run is stricter than the intended one. */
  lemma AsWrittenMoveIsUsable(h: map<SlotKey, Horario>, rs: map<int, Reserva>, sv: map<int, Servicio>, id: int, start: int)
    requires id in rs && rs[id].servicio in sv
    requires SpanUsable(h, rs, rs[id].barbero, start, SpanOf(rs[id], sv), ReprogramRule(id))
    ensures MoveUsable(h, rs, sv, id, start)
  {
  }

  /** Moving an active reservation whose new span passes the intended
      check keeps the invariant: release the old span, move the start,
      claim the new span. */
  lemma {:induction false} ReprogramPreservesSound(h: map<SlotKey, Horario>, rs: map<int, Reserva>, sv: map<int, Servicio>,
                                                   id: int, start: int)
    requires Sound(h, rs, sv) && id in rs && rs[id].servicio in sv
    requires Active(rs[id].estado)
    requires MoveUsable(h, rs, sv, id, start)
    ensures var r := rs[id]; var n := SpanOf(r, sv);
      Sound(SetSpan(SetSpan(h, r.barbero, r.inicio, n, true), r.barbero, start, n, false),
            rs[id := r.(inicio := start)], sv)
  {
    var r := rs[id];
    var n := SpanOf(r, sv);
    var h1 := SetSpan(h, r.barbero, r.inicio, n, true);
    var h2 := SetSpan(h1, r.barbero, start, n, false);
    var rs' := rs[id := r.(inicio := start)];
    forall j, k | Holds(rs, sv, j, k) && j != id
      ensures k in h && !h[k].disponible && !InSpan(k, r.barbero, r.inicio, n)
    {
      assert !Holds(rs, sv, id, k);
    }
    forall k | InSpan(k, r.barbero, start, n)
      ensures k in h && (h[k].disponible || InSpan(k, r.barbero, r.inicio, n))
    {
      SpanKey(k, r.barbero, start, n);
      var i := Bucket(k) - start / SlotMinutes;
      assert MoveSlotOk(h, rs, sv, id, SlotTime(start, i));
    }
    forall j, k | Holds(rs', sv, j, k)
      ensures k in h2 && !h2[k].disponible
    {
      if j != id {
        assert Holds(rs, sv, j, k);
      }
    }
    forall j1, j2, k | Holds(rs', sv, j1, k) && Holds(rs', sv, j2, k)
      ensures j1 == j2
    {
      if j1 != id && j2 != id {
        assert Holds(rs, sv, j1, k) && Holds(rs, sv, j2, k);
      } else if j1 != j2 {
        var other := if j1 == id then j2 else j1;
        assert Holds(rs, sv, other, k);
      }
    }
  }
}
