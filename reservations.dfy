/** The reservation handlers: book, cancel (client, barber, admin),
    complete and reprogram.  The router file and the monolithic server
    file carry the same handlers; in this model they differ only in the
    booking check, selected here by `Variant`.  Every slot time is read in
    one zone; the router's booking, which takes the time of day in the
    server's local zone but the date in UTC, is modelled as if the server
    ran in UTC. */
module Reservations {
  import opened Base
  import opened Slots
  import opened Tables
  import opened SlotCheck
  import opened Ledger

  /** Which copy of the booking handler runs. */
  datatype Variant = Router | Monolith

  /** The booking check of each copy. */
  function CreateRule(v: Variant): (rule: SlotRule)
    ensures rule.exclude.None?
    ensures v == Router ==> !rule.needsDisponible && rule.blocking == ActiveOnly
    ensures v == Monolith ==> rule.needsDisponible && rule.blocking == NotCancelled
  {
    match v
    case Router => RouterCreateRule
    case Monolith => MonolithCreateRule
  }

  /** Body of a booking request; fecha_hora in minutes. */
  datatype BookingRequest = BookingRequest(barbero: Option<int>, servicio: Option<int>, fechaHora: Option<int>)

  /** The checks a booking passes before any slot is looked at, in the
      handler's order; None when all pass. */
  function BookingGuard(bs: map<int, Barbero>, sv: map<int, Servicio>, req: BookingRequest, now: int): (g: Option<Failure>)
    ensures g.None? <==>
      GivenNumber(req.barbero) && GivenNumber(req.servicio) && req.fechaHora.Some? &&
      req.fechaHora.value > now && req.barbero.value in bs && bs[req.barbero.value].estado != Inactivo &&
      req.servicio.value in sv
    ensures !(GivenNumber(req.barbero) && GivenNumber(req.servicio) && req.fechaHora.Some?) ==> g == Some(BadRequest)
    ensures req.fechaHora.Some? && req.fechaHora.value <= now ==> g == Some(BadRequest)
    ensures GivenNumber(req.barbero) && GivenNumber(req.servicio) && req.fechaHora.Some? && req.fechaHora.value > now ==>
      (req.barbero.value !in bs ==> g == Some(NotFound)) &&
      (req.barbero.value in bs && bs[req.barbero.value].estado == Inactivo ==> g == Some(Conflict)) &&
      (req.barbero.value in bs && bs[req.barbero.value].estado != Inactivo && req.servicio.value !in sv ==> g == Some(NotFound))
  {
    if !(GivenNumber(req.barbero) && GivenNumber(req.servicio) && req.fechaHora.Some?) then Some(BadRequest)
    else if req.fechaHora.value <= now then Some(BadRequest)
    else if req.barbero.value !in bs then Some(NotFound)
    else if bs[req.barbero.value].estado == Inactivo then Some(Conflict)
    else if req.servicio.value !in sv then Some(NotFound)
    else None
  }

  /** The client cancel / reprogram window: less than 24 hours ahead is too late. */
  const Window: int := 24 * 60

  predicate TooLate(start: int, now: int)
  {
    start - now < Window
  }

  /** POST /reservas.  On success one reservation row is inserted under a
      fresh id and exactly the rows of its ceil(duracion/30) slots become
      unavailable; every failure leaves the database untouched. */
  method Create(db: Db, actor: Actor, req: BookingRequest, now: int, v: Variant) returns (r: Result<int>)
    requires db.Valid()
    modifies db`reservas, db`horarios, db`nextReserva
    ensures db.Valid()
    ensures r.Err? ==> unchanged(db)
    ensures var g := BookingGuard(db.barberos, db.servicios, req, now);
      (g.Some? ==> r == Err(g.value)) &&
      (g.None? ==>
        var b, s, start := req.barbero.value, req.servicio.value, req.fechaHora.value;
        var n := NumSlots(db.servicios[s].duracion);
        (r.Ok? <==> SpanUsable(old(db.horarios), old(db.reservas), b, start, n, CreateRule(v))) &&
        (r.Err? ==> exists j :: FirstFailing(old(db.horarios), old(db.reservas), b, start, n, CreateRule(v), j) &&
                                r.failure == SlotFailure(old(db.horarios), b, SlotTime(start, j), CreateRule(v), j)) &&
        (r.Ok? ==> r.value !in old(db.reservas) &&
                   db.reservas == old(db.reservas)[r.value := Reserva(actor.id, b, s, start, EstadoInicial)] &&
                   db.horarios == SetSpan(old(db.horarios), b, start, n, false)))
    ensures v == Monolith && old(Sound(db.horarios, db.reservas, db.servicios)) ==> Sound(db.horarios, db.reservas, db.servicios)
  {
    if !(GivenNumber(req.barbero) && GivenNumber(req.servicio) && req.fechaHora.Some?) {
      return Err(BadRequest);
    }
    var b, s, start := req.barbero.value, req.servicio.value, req.fechaHora.value;
    if start <= now {
      return Err(BadRequest);
    }
    if b !in db.barberos {
      return Err(NotFound);
    }
    if db.barberos[b].estado == Inactivo {
      return Err(Conflict);
    }
    if s !in db.servicios {
      return Err(NotFound);
    }
    var n := NumSlots(db.servicios[s].duracion);
    var occupied := Probe(db.horarios, db.reservas, b, start, n, CreateRule(v));
    if occupied.Err? {
      return Err(occupied.failure);
    }
    var id := db.nextReserva;
    var res := Reserva(actor.id, b, s, start, EstadoInicial);
    db.reservas := db.reservas[id := res];
    db.nextReserva := db.nextReserva + 1;
    ClaimIsSpan(db.horarios, b, start, occupied.value, false);
    db.Claim(occupied.value);
    if v == Monolith && old(Sound(db.horarios, db.reservas, db.servicios)) {
      CreatePreservesSound(old(db.horarios), old(db.reservas), db.servicios, id, res);
    }
    r := Ok(id);
  }

  /** The write part shared by the three cancel handlers: estado becomes
      cancelada and the rows of the span recomputed from the stored start
      and the service's duration are released. */
  method CancelAndRelease(db: Db, id: int)
    requires db.Valid() && id in db.reservas && db.reservas[id].servicio in db.servicios
    modifies db`reservas, db`horarios
    ensures db.Valid()
    ensures var r := old(db.reservas[id]);
      db.reservas == old(db.reservas)[id := r.(estado := Cancelada)] &&
      db.horarios == SetSpan(old(db.horarios), r.barbero, r.inicio, SpanOf(r, db.servicios), true)
    ensures old(Sound(db.horarios, db.reservas, db.servicios)) && Active(old(db.reservas[id].estado)) ==>
      Sound(db.horarios, db.reservas, db.servicios)
  {
    var r := db.reservas[id];
    var n := NumSlots(db.servicios[r.servicio].duracion);
    db.reservas := db.reservas[id := r.(estado := Cancelada)];
    db.Release(r.barbero, r.inicio, n);
    if old(Sound(db.horarios, db.reservas, db.servicios)) && Active(r.estado) {
      CancelPreservesSound(old(db.horarios), old(db.reservas), db.servicios, id);
    }
  }

  /** PUT /reservas/:id/cancelar (client): only the owner (else 404), only
      24 hours or more ahead (else 400).  The current estado is not looked at. */
  method CancelByClient(db: Db, actor: Actor, id: int, now: int) returns (r: Result<()>)
    requires db.Valid()
    modifies db`reservas, db`horarios
    ensures db.Valid()
    ensures r.Err? ==> unchanged(db)
    ensures !(id in old(db.reservas) && old(db.reservas[id].usuario) == actor.id) ==> r == Err(NotFound)
    ensures id in old(db.reservas) && old(db.reservas[id].usuario) == actor.id ==>
      var res := old(db.reservas[id]);
      (TooLate(res.inicio, now) ==> r == Err(BadRequest)) &&
      (!TooLate(res.inicio, now) && res.servicio !in db.servicios ==> r == Err(ServerError)) &&
      (r.Ok? <==> !TooLate(res.inicio, now) && res.servicio in db.servicios) &&
      (r.Ok? ==> db.reservas == old(db.reservas)[id := res.(estado := Cancelada)] &&
                 db.horarios == SetSpan(old(db.horarios), res.barbero, res.inicio, SpanOf(res, db.servicios), true))
    ensures old(Sound(db.horarios, db.reservas, db.servicios)) && id in old(db.reservas) && Active(old(db.reservas[id].estado)) ==>
      Sound(db.horarios, db.reservas, db.servicios)
  {
    if !(id in db.reservas && db.reservas[id].usuario == actor.id) {
      return Err(NotFound);
    }
    var res := db.reservas[id];
    if TooLate(res.inicio, now) {
      return Err(BadRequest);
    }
    if res.servicio !in db.servicios {
      return Err(ServerError);
    }
    CancelAndRelease(db, id);
    r := Ok(());
  }

  /** The barber assigned to reservation id is the caller. */
  predicate AssignedTo(rs: map<int, Reserva>, bs: map<int, Barbero>, id: int, actor: Actor)
  {
    id in rs && rs[id].barbero in bs && bs[rs[id].barbero].usuario == actor.id
  }

  /** PUT /reservas/:id/completar: barbers only, and only the assigned one
      (403 otherwise).  Sets estado to completada and touches no horario row. */
  method Complete(db: Db, actor: Actor, id: int) returns (r: Result<Reserva>)
    requires db.Valid()
    modifies db`reservas
    ensures db.Valid()
    ensures r.Err? ==> unchanged(db)
    ensures r.Ok? <==> actor.rol == Rol.Barbero && AssignedTo(old(db.reservas), db.barberos, id, actor)
    ensures r.Err? ==> r.failure == Forbidden
    ensures r.Ok? ==> r.value == old(db.reservas[id]).(estado := Completada) &&
                      db.reservas == old(db.reservas)[id := r.value]
    ensures old(Sound(db.horarios, db.reservas, db.servicios)) ==> Sound(db.horarios, db.reservas, db.servicios)
  {
    if actor.rol != Rol.Barbero || !AssignedTo(db.reservas, db.barberos, id, actor) {
      return Err(Forbidden);
    }
    var done := db.reservas[id].(estado := Completada);
    if Sound(db.horarios, db.reservas, db.servicios) {
      CompletePreservesSound(db.horarios, db.reservas, db.servicios, id);
    }
    db.reservas := db.reservas[id := done];
    r := Ok(done);
  }

  /** PUT /reservas/:id/cancelar_barbero: the assigned barber cancels with
      no time window and the same release as the client cancel. */
  method CancelByBarber(db: Db, actor: Actor, id: int) returns (r: Result<()>)
    requires db.Valid()
    modifies db`reservas, db`horarios
    ensures db.Valid()
    ensures r.Err? ==> unchanged(db)
    ensures !(actor.rol == Rol.Barbero && AssignedTo(old(db.reservas), db.barberos, id, actor)) ==> r == Err(Forbidden)
    ensures actor.rol == Rol.Barbero && AssignedTo(old(db.reservas), db.barberos, id, actor) ==>
      var res := old(db.reservas[id]);
      (r.Ok? <==> res.servicio in db.servicios) &&
      (r.Err? ==> r.failure == ServerError) &&
      (r.Ok? ==> db.reservas == old(db.reservas)[id := res.(estado := Cancelada)] &&
                 db.horarios == SetSpan(old(db.horarios), res.barbero, res.inicio, SpanOf(res, db.servicios), true))
    ensures old(Sound(db.horarios, db.reservas, db.servicios)) && id in old(db.reservas) && Active(old(db.reservas[id].estado)) ==>
      Sound(db.horarios, db.reservas, db.servicios)
  {
    if actor.rol != Rol.Barbero || !AssignedTo(db.reservas, db.barberos, id, actor) {
      return Err(Forbidden);
    }
    if db.reservas[id].servicio !in db.servicios {
      return Err(ServerError);
    }
    CancelAndRelease(db, id);
    r := Ok(());
  }

  /** PUT /api/admin/reservas/:id/cancelar: administrators only (403), any
      existing reservation (404 otherwise), no time window. */
  method CancelByAdmin(db: Db, actor: Actor, id: int) returns (r: Result<()>)
    requires db.Valid()
    modifies db`reservas, db`horarios
    ensures db.Valid()
    ensures r.Err? ==> unchanged(db)
    ensures actor.rol != SuperAdmin ==> r == Err(Forbidden)
    ensures actor.rol == SuperAdmin && id !in old(db.reservas) ==> r == Err(NotFound)
    ensures actor.rol == SuperAdmin && id in old(db.reservas) ==>
      var res := old(db.reservas[id]);
      (r.Ok? <==> res.servicio in db.servicios) &&
      (r.Err? ==> r.failure == ServerError) &&
      (r.Ok? ==> db.reservas == old(db.reservas)[id := res.(estado := Cancelada)] &&
                 db.horarios == SetSpan(old(db.horarios), res.barbero, res.inicio, SpanOf(res, db.servicios), true))
    ensures old(Sound(db.horarios, db.reservas, db.servicios)) && id in old(db.reservas) && Active(old(db.reservas[id].estado)) ==>
      Sound(db.horarios, db.reservas, db.servicios)
  {
    if actor.rol != SuperAdmin {
      return Err(Forbidden);
    }
    if id !in db.reservas {
      return Err(NotFound);
    }
    if db.reservas[id].servicio !in db.servicios {
      return Err(ServerError);
    }
    CancelAndRelease(db, id);
    r := Ok(());
  }

  /** PUT /reservas/:id/reprogramar.  Every check runs before the first
      write, so any failure leaves start and slots as they were; on
      success the old span is released, the start moved, and exactly the
      rows of the new span claimed. */
  method Reprogram(db: Db, actor: Actor, id: int, nueva: Option<int>, now: int) returns (r: Result<Reserva>)
    requires db.Valid()
    modifies db`reservas, db`horarios
    ensures db.Valid()
    ensures r.Err? ==> unchanged(db)
    ensures nueva.None? ==> r == Err(BadRequest)
    ensures nueva.Some? && !(id in old(db.reservas) && old(db.reservas[id].usuario) == actor.id) ==> r == Err(NotFound)
    ensures nueva.Some? && id in old(db.reservas) && old(db.reservas[id].usuario) == actor.id ==>
      var res := old(db.reservas[id]);
      (res.servicio !in db.servicios ==> r == Err(ServerError)) &&
      (res.servicio in db.servicios ==>
        var n, start := SpanOf(res, db.servicios), nueva.value;
        (TooLate(res.inicio, now) ==> r == Err(BadRequest)) &&
        (r.Ok? <==> !TooLate(res.inicio, now) &&
                    SpanUsable(old(db.horarios), old(db.reservas), res.barbero, start, n, ReprogramRule(id))) &&
        (!TooLate(res.inicio, now) && r.Err? ==>
          exists j :: FirstFailing(old(db.horarios), old(db.reservas), res.barbero, start, n, ReprogramRule(id), j) &&
                      r.failure == SlotFailure(old(db.horarios), res.barbero, SlotTime(start, j), ReprogramRule(id), j)) &&
        (r.Ok? ==> r.value == res.(inicio := start) &&
                   db.reservas == old(db.reservas)[id := r.value] &&
                   db.horarios == SetSpan(SetSpan(old(db.horarios), res.barbero, res.inicio, n, true), res.barbero, start, n, false)))
    ensures old(Sound(db.horarios, db.reservas, db.servicios)) && id in old(db.reservas) && Active(old(db.reservas[id].estado)) ==>
      Sound(db.horarios, db.reservas, db.servicios)
  {
    if nueva.None? {
      return Err(BadRequest);
    }
    if !(id in db.reservas && db.reservas[id].usuario == actor.id) {
      return Err(NotFound);
    }
    var res := db.reservas[id];
    if res.servicio !in db.servicios {
      return Err(ServerError);
    }
    var n := NumSlots(db.servicios[res.servicio].duracion);
    if TooLate(res.inicio, now) {
      return Err(BadRequest);
    }
    var start := nueva.value;
    var occupied := Probe(db.horarios, db.reservas, res.barbero, start, n, ReprogramRule(id));
    if occupied.Err? {
      return Err(occupied.failure);
    }
    db.Release(res.barbero, res.inicio, n);
    var moved := res.(inicio := start);
    db.reservas := db.reservas[id := moved];
    SpanIdsAfterSet(old(db.horarios), res.barbero, start, occupied.value, res.barbero, res.inicio, n, true);
    ClaimIsSpan(db.horarios, res.barbero, start, occupied.value, false);
    db.Claim(occupied.value);
    if old(Sound(db.horarios, db.reservas, db.servicios)) && Active(res.estado) {
      AsWrittenMoveIsUsable(old(db.horarios), old(db.reservas), db.servicios, id, start);
      ReprogramPreservesSound(old(db.horarios), old(db.reservas), db.servicios, id, start);
    }
    r := Ok(moved);
  }
}
