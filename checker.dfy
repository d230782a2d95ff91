/** The per-slot availability check the booking handlers run before they
    write anything: for each slot of the span, a horario row must cover
    the slot time, and no blocking reservation may start at that time. */
module SlotCheck {
  import opened Base
  import opened Slots
  import opened Tables

  /** Which reservation estados make a slot taken. */
  datatype Blocking =
    | ActiveOnly    // estado IN ('pendiente', 'confirmada')
    | NotCancelled  // estado != 'cancelada'

  predicate Blocks(b: Blocking, e: Estado)
  {
    match b
    case ActiveOnly => Active(e)
    case NotCancelled => e != Cancelada
  }

  /** The variants of the check: whether the horario query also demands
      `disponible = true`, which estados block, and which reservation id
      the conflict query skips (`id != $4`). */
  datatype SlotRule = SlotRule(needsDisponible: bool, blocking: Blocking, exclude: Option<int>)

  /** A horario row covers time t (and is free, when the rule asks for it). */
  predicate RowOk(h: map<SlotKey, Horario>, barbero: int, t: int, rule: SlotRule)
  {
    KeyAt(barbero, t) in h && (rule.needsDisponible ==> h[KeyAt(barbero, t)].disponible)
  }

  /** Reservation `id` starts exactly at t with this barber and blocks under the rule. */
  predicate BlocksAt(rs: map<int, Reserva>, id: int, barbero: int, t: int, rule: SlotRule)
  {
    id in rs && rs[id].barbero == barbero && rs[id].inicio == t &&
    Blocks(rule.blocking, rs[id].estado) && rule.exclude != Some(id)
  }

  predicate Clash(rs: map<int, Reserva>, barbero: int, t: int, rule: SlotRule)
  {
    exists id | id in rs :: BlocksAt(rs, id, barbero, t, rule)
  }

  predicate SlotUsable(h: map<SlotKey, Horario>, rs: map<int, Reserva>, barbero: int, t: int, rule: SlotRule)
  {
    RowOk(h, barbero, t, rule) && !Clash(rs, barbero, t, rule)
  }

  /** All n slots from `start` pass the check. */
  predicate SpanUsable(h: map<SlotKey, Horario>, rs: map<int, Reserva>, barbero: int, start: int, n: nat, rule: SlotRule)
  {
    forall i :: 0 <= i < n ==> SlotUsable(h, rs, barbero, SlotTime(start, i), rule)
  }

  /** Slot j (0-based) is the first that fails. */
  predicate FirstFailing(h: map<SlotKey, Horario>, rs: map<int, Reserva>, barbero: int, start: int, n: nat, rule: SlotRule, j: int)
  {
    0 <= j < n && !SlotUsable(h, rs, barbero, SlotTime(start, j), rule) &&
    forall i :: 0 <= i < j ==> SlotUsable(h, rs, barbero, SlotTime(start, i), rule)
  }

  /** The reply for failing slot j: the row check comes first, then the reservation check. */
  function SlotFailure(h: map<SlotKey, Horario>, barbero: int, t: int, rule: SlotRule, j: nat): (f: Failure)
    ensures StatusCode(f) == 409
    ensures f == SlotUnavailable(j + 1) || f == SlotReserved(j + 1)
    ensures f.SlotUnavailable? <==> !RowOk(h, barbero, t, rule)
  {
    if !RowOk(h, barbero, t, rule) then SlotUnavailable(j + 1) else SlotReserved(j + 1)
  }

  /** The check loop of the booking and reprogram handlers.  It stops at the
      first failing slot and names it; otherwise it returns the ids of the
      n rows, in slot order (occupiedSlots / newOccupiedSlots). */
  method Probe(h: map<SlotKey, Horario>, rs: map<int, Reserva>, barbero: int, start: int, n: nat, rule: SlotRule)
    returns (r: Result<seq<int>>)
    ensures r.Ok? <==> SpanUsable(h, rs, barbero, start, n, rule)
    ensures r.Ok? ==> |r.value| == n && SpanIds(h, barbero, start, r.value)
    ensures r.Err? ==> exists j :: FirstFailing(h, rs, barbero, start, n, rule, j) &&
                                   r.failure == SlotFailure(h, barbero, SlotTime(start, j), rule, j)
  {
    var ids: seq<int> := [];
    var i := 0;
    while i < n
      invariant 0 <= i <= n && |ids| == i
      invariant forall j :: 0 <= j < i ==> SlotUsable(h, rs, barbero, SlotTime(start, j), rule)
      invariant SpanIds(h, barbero, start, ids)
    {
      var t := SlotTime(start, i);
      var k := KeyAt(barbero, t);
      if !(k in h && (rule.needsDisponible ==> h[k].disponible)) {
        assert FirstFailing(h, rs, barbero, start, n, rule, i);
        return Err(SlotUnavailable(i + 1));
      }
      var clash := exists id | id in rs :: BlocksAt(rs, id, barbero, t, rule);
      if clash {
        assert FirstFailing(h, rs, barbero, start, n, rule, i);
        return Err(SlotReserved(i + 1));
      }
      ids := ids + [h[k].id];
      i := i + 1;
    }
    r := Ok(ids);
  }

  /** POST /reservas in the router: a row must exist, pending and confirmed reservations block. */
  const RouterCreateRule: SlotRule := SlotRule(false, ActiveOnly, None)
  /** POST /api/reservas in the monolith: the row must be disponible, every non-cancelled reservation blocks. */
  const MonolithCreateRule: SlotRule := SlotRule(true, NotCancelled, None)

  /** The reprogram check (same in both copies): disponible rows, non-cancelled
      reservations other than the one being moved. */
  function ReprogramRule(id: int): (rule: SlotRule)
    ensures rule.needsDisponible && rule.blocking == NotCancelled
    ensures forall rs: map<int, Reserva>, b: int, t: int :: Clash(rs, b, t, rule) <==>
      exists other :: other in rs && other != id && rs[other].barbero == b &&
                      rs[other].inicio == t && rs[other].estado != Cancelada
  {
    SlotRule(true, NotCancelled, Some(id))
  }

  /** A slot that passes the monolith check also passes the router check:
      the router's check is the weaker one on both counts. */
  lemma MonolithStricter(h: map<SlotKey, Horario>, rs: map<int, Reserva>, barbero: int, t: int)
    requires SlotUsable(h, rs, barbero, t, MonolithCreateRule)
    ensures SlotUsable(h, rs, barbero, t, RouterCreateRule)
  {
  }
}
