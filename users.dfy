/** The administrator's role change for a user account. */
module Users {
  import opened Base
  import opened Tables

  /** PUT /usuarios/:id/rol: administrators only; the new role must be one
      of the three known names (400), the user must exist (404). */
  method ChangeRole(db: Db, actor: Actor, id: int, rol: string) returns (r: Result<Usuario>)
    requires db.Valid()
    modifies db`usuarios
    ensures db.Valid()
    ensures r.Err? ==> unchanged(db)
    ensures actor.rol != SuperAdmin ==> r == Err(Forbidden)
    ensures actor.rol == SuperAdmin && ParseRol(rol).None? ==> r == Err(BadRequest)
    ensures actor.rol == SuperAdmin && ParseRol(rol).Some? && id !in old(db.usuarios) ==> r == Err(NotFound)
    ensures r.Ok? <==> actor.rol == SuperAdmin && ParseRol(rol).Some? && id in old(db.usuarios)
    ensures r.Ok? ==> RolName(r.value.rol) == rol &&
                      r.value == old(db.usuarios)[id].(rol := r.value.rol) &&
                      db.usuarios == old(db.usuarios)[id := r.value]
  {
    if actor.rol != SuperAdmin {
      return Err(Forbidden);
    }
    var parsed := ParseRol(rol);
    if parsed.None? {
      return Err(BadRequest);
    }
    if id !in db.usuarios {
      return Err(NotFound);
    }
    var row := db.usuarios[id].(rol := parsed.value);
    db.usuarios := db.usuarios[id := row];
    r := Ok(row);
  }
}
