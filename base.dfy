/** Values shared by every handler: optional request fields, roles and the
    error replies the HTTP handlers send. */
module Base {

  datatype Option<+T> = None | Some(value: T)

  /** The error replies of the handlers, one per HTTP status they send.
      The two slot conflicts carry the 1-based slot number the message names. */
  datatype Failure =
    | BadRequest                  // 400
    | Forbidden                   // 403
    | NotFound                    // 404
    | Conflict                    // 409
    | SlotUnavailable(slot: nat)  // 409 "Horario no existe / no disponible para el slot N"
    | SlotReserved(slot: nat)     // 409 "Ya existe una reserva en el slot N"
    | ServerError                 // 500 (a query result the handler dereferences is empty)

  datatype Result<+T> = Ok(value: T) | Err(failure: Failure)

  function StatusCode(f: Failure): (code: int)
    ensures code in {400, 403, 404, 409, 500}
    ensures code == 409 <==> f.Conflict? || f.SlotUnavailable? || f.SlotReserved?
  {
    match f
    case BadRequest => 400
    case Forbidden => 403
    case NotFound => 404
    case Conflict => 409
    case SlotUnavailable(_) => 409
    case SlotReserved(_) => 409
    case ServerError => 500
  }

  /** The three values of usuarios.rol. */
  datatype Rol = Cliente | Barbero | SuperAdmin

  /** The authenticated caller, as the token middleware hands it over. */
  datatype Actor = Actor(id: int, rol: Rol)

  function RolName(r: Rol): string
  {
    match r
    case Cliente => "cliente"
    case Barbero => "barbero"
    case SuperAdmin => "super_admin"
  }

  /** The role whitelist of the role-change endpoint. */
  function ParseRol(s: string): (r: Option<Rol>)
    ensures r.Some? <==> s == "cliente" || s == "barbero" || s == "super_admin"
    ensures r.Some? ==> RolName(r.value) == s
  {
    if s == "cliente" then Some(Cliente)
    else if s == "barbero" then Some(Barbero)
    else if s == "super_admin" then Some(SuperAdmin)
    else None
  }

  lemma ParseRolName(r: Rol)
    ensures ParseRol(RolName(r)) == Some(r)
  {
  }

  /** JavaScript truthiness of an optional numeric body field: absent and 0 are falsy. */
  predicate GivenNumber(x: Option<int>)
  {
    x.Some? && x.value != 0
  }

  /** JavaScript truthiness of an optional string body field: absent and "" are falsy. */
  predicate GivenText(x: Option<string>)
  {
    x.Some? && x.value != ""
  }

  /** SELECT ... WHERE keep ORDER BY id over the serial ids lo .. hi-1 of a table. */
  function Listing<T>(m: map<int, T>, keep: T -> bool, lo: int, hi: int): (out: seq<(int, T)>)
    decreases hi - lo
    ensures forall i :: 0 <= i < |out| ==>
      lo <= out[i].0 < hi && out[i].0 in m && out[i].1 == m[out[i].0] && keep(out[i].1)
    ensures forall i, j :: 0 <= i < j < |out| ==> out[i].0 < out[j].0
    ensures forall id :: id in m && lo <= id < hi && keep(m[id]) ==> (id, m[id]) in out
  {
    if lo >= hi then []
    else
      var rest := Listing(m, keep, lo + 1, hi);
      if lo in m && keep(m[lo]) then [(lo, m[lo])] + rest else rest
  }
}
