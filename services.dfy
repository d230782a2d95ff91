/** The service catalog: listing, creation, update and soft delete, all
    behind the administrator role. */
module Services {
  import opened Base
  import opened Slots
  import opened Tables

  /** GET /servicios: the active services in id order. */
  function ActiveServices(sv: map<int, Servicio>, next: int): (out: seq<(int, Servicio)>)
    ensures forall i :: 0 <= i < |out| ==> out[i].0 in sv && out[i].1 == sv[out[i].0] && out[i].1.activo
    ensures forall i, j :: 0 <= i < j < |out| ==> out[i].0 < out[j].0
    ensures (forall id :: id in sv ==> 1 <= id < next) ==>
      forall id :: id in sv && sv[id].activo ==> (id, sv[id]) in out
  {
    Listing(sv, (s: Servicio) => s.activo, 1, next)
  }

  /** Body of POST /servicios. */
  datatype NewService = NewService(nombre: Option<string>, descripcion: string, precio: Option<int>, duracion: Option<int>)

  /** The create guards in order: presence (0 counts as absent), then
      positive price, then positive duration. */
  function NewServiceGuard(req: NewService): (g: Option<Failure>)
    ensures g.None? <==> GivenText(req.nombre) && req.precio.Some? && req.precio.value > 0 &&
                          req.duracion.Some? && req.duracion.value > 0
    ensures g.Some? ==> g.value == BadRequest
  {
    if !(GivenText(req.nombre) && GivenNumber(req.precio) && GivenNumber(req.duracion)) then Some(BadRequest)
    else if req.precio.value <= 0 then Some(BadRequest)
    else if req.duracion.value <= 0 then Some(BadRequest)
    else None
  }

  /** POST /servicios: the new row is active and, since its duration is
      positive, every booking of it needs at least one slot. */
  method CreateService(db: Db, actor: Actor, req: NewService) returns (r: Result<int>)
    requires db.Valid()
    modifies db`servicios, db`nextServicio
    ensures db.Valid()
    ensures r.Err? ==> unchanged(db)
    ensures actor.rol != SuperAdmin ==> r == Err(Forbidden)
    ensures actor.rol == SuperAdmin ==> (r.Ok? <==> NewServiceGuard(req).None?)
    ensures actor.rol == SuperAdmin && r.Err? ==> r.failure == BadRequest
    ensures r.Ok? ==>
      r.value !in old(db.servicios) &&
      db.servicios == old(db.servicios)[r.value := Servicio(req.nombre.value, req.descripcion, req.precio.value, req.duracion.value, true)] &&
      NumSlots(db.servicios[r.value].duracion) >= 1
  {
    if actor.rol != SuperAdmin {
      return Err(Forbidden);
    }
    if !(GivenText(req.nombre) && GivenNumber(req.precio) && GivenNumber(req.duracion)) {
      return Err(BadRequest);
    }
    if req.precio.value <= 0 {
      return Err(BadRequest);
    }
    if req.duracion.value <= 0 {
      return Err(BadRequest);
    }
    var id := db.nextServicio;
    db.servicios := db.servicios[id := Servicio(req.nombre.value, req.descripcion, req.precio.value, req.duracion.value, true)];
    db.nextServicio := db.nextServicio + 1;
    r := Ok(id);
  }

  /** Body of PUT /servicios/:id; every column is overwritten. */
  datatype ServiceUpdate = ServiceUpdate(nombre: string, descripcion: string, precio: int, duracion: int, activo: bool)

  /** PUT /servicios/:id: the positivity checks run before the row is looked up. */
  method UpdateService(db: Db, actor: Actor, id: int, req: ServiceUpdate) returns (r: Result<Servicio>)
    requires db.Valid()
    modifies db`servicios
    ensures db.Valid()
    ensures r.Err? ==> unchanged(db)
    ensures actor.rol != SuperAdmin ==> r == Err(Forbidden)
    ensures actor.rol == SuperAdmin && (req.precio <= 0 || req.duracion <= 0) ==> r == Err(BadRequest)
    ensures actor.rol == SuperAdmin && req.precio > 0 && req.duracion > 0 && id !in old(db.servicios) ==> r == Err(NotFound)
    ensures r.Ok? <==> actor.rol == SuperAdmin && req.precio > 0 && req.duracion > 0 && id in old(db.servicios)
    ensures r.Ok? ==> r.value == Servicio(req.nombre, req.descripcion, req.precio, req.duracion, req.activo) &&
                      db.servicios == old(db.servicios)[id := r.value]
  {
    if actor.rol != SuperAdmin {
      return Err(Forbidden);
    }
    if req.precio <= 0 {
      return Err(BadRequest);
    }
    if req.duracion <= 0 {
      return Err(BadRequest);
    }
    if id !in db.servicios {
      return Err(NotFound);
    }
    var row := Servicio(req.nombre, req.descripcion, req.precio, req.duracion, req.activo);
    db.servicios := db.servicios[id := row];
    r := Ok(row);
  }

  /** DELETE /servicios/:id: a soft delete that keeps the row and its
      other columns and clears `activo`. */
  method DeleteService(db: Db, actor: Actor, id: int) returns (r: Result<()>)
    requires db.Valid()
    modifies db`servicios
    ensures db.Valid()
    ensures r.Err? ==> unchanged(db)
    ensures actor.rol != SuperAdmin ==> r == Err(Forbidden)
    ensures actor.rol == SuperAdmin && id !in old(db.servicios) ==> r == Err(NotFound)
    ensures r.Ok? <==> actor.rol == SuperAdmin && id in old(db.servicios)
    ensures r.Ok? ==> db.servicios.Keys == old(db.servicios).Keys &&
                      db.servicios == old(db.servicios)[id := old(db.servicios)[id].(activo := false)]
  {
    if actor.rol != SuperAdmin {
      return Err(Forbidden);
    }
    if id !in db.servicios {
      return Err(NotFound);
    }
    db.servicios := db.servicios[id := db.servicios[id].(activo := false)];
    r := Ok(());
  }

  /** A deleted service drops out of the listing and keeps its row. */
  lemma {:induction false} DeletedNotListed(sv: map<int, Servicio>, next: int, id: int)
    requires id in sv
    ensures id in sv[id := sv[id].(activo := false)]
    ensures forall e :: e in ActiveServices(sv[id := sv[id].(activo := false)], next) ==> e.0 != id
  {
    var out := ActiveServices(sv[id := sv[id].(activo := false)], next);
    forall e | e in out
      ensures e.0 != id
    {
      var i :| 0 <= i < |out| && out[i] == e;
      assert out[i].1.activo;
    }
  }
}
