/** Barber administration: the public list, registration of a new barber
    account, soft deactivation and profile update. */
module Barbers {
  import opened Base
  import opened Tables
  import Reservations

  /** GET /barberos: barbers not marked inactivo whose usuario row exists
      (the list joins usuarios), in id order. */
  function ActiveBarbers(bs: map<int, Barbero>, us: map<int, Usuario>, next: int): (out: seq<(int, Barbero)>)
    ensures forall i :: 0 <= i < |out| ==>
      out[i].0 in bs && out[i].1 == bs[out[i].0] && out[i].1.estado != Inactivo && out[i].1.usuario in us
    ensures forall i, j :: 0 <= i < j < |out| ==> out[i].0 < out[j].0
    ensures (forall id :: id in bs ==> 1 <= id < next) ==>
      forall id :: id in bs && bs[id].estado != Inactivo && bs[id].usuario in us ==> (id, bs[id]) in out
  {
    Listing(bs, (b: Barbero) => b.estado != Inactivo && b.usuario in us, 1, next)
  }

  /** Array.prototype.join(' ') */
  function Join(parts: seq<string>): string
  {
    if |parts| == 0 then ""
    else if |parts| == 1 then parts[0]
    else parts[0] + " " + Join(parts[1..])
  }

  /** String.prototype.split(' '): the pieces between single spaces, empty
      pieces included; joining them back gives the input. */
  function Split(s: string): (parts: seq<string>)
    decreases |s|
    ensures |parts| >= 1
    ensures forall i :: 0 <= i < |parts| ==> ' ' !in parts[i]
    ensures Join(parts) == s
  {
    if |s| == 0 then [""]
    else if s[0] == ' ' then
      var rest := Split(s[1..]);
      assert ([""] + rest)[1..] == rest;
      assert s == [' '] + s[1..];
      [""] + rest
    else
      var rest := Split(s[1..]);
      var parts := [[s[0]] + rest[0]] + rest[1..];
      assert parts[1..] == rest[1..];
      assert s == [s[0]] + s[1..];
      parts
  }

  /** The full name becomes nombre (the first piece) and apellido (the
      other pieces rejoined with spaces): nombre is everything before the
      first space and apellido everything after it. */
  function SplitName(name: string): (r: (string, string))
    ensures ' ' !in r.0
    ensures ' ' !in name ==> r == (name, "")
    ensures ' ' in name ==> r.0 + " " + r.1 == name
  {
    var parts := Split(name);
    assert parts == [parts[0]] + parts[1..];
    if |parts| == 1 then
      (parts[0], Join(parts[1..]))
    else
      assert name == parts[0] + " " + Join(parts[1..]);
      assert name[|parts[0]|] == ' ';
      (parts[0], Join(parts[1..]))
  }

  predicate EmailTaken(us: map<int, Usuario>, email: string)
  {
    exists id | id in us :: us[id].email == email
  }

  /** Body of POST /barberos/register. */
  datatype Registration = Registration(name: Option<string>, email: Option<string>, password: Option<string>,
                                       phone: Option<string>, turno: Option<string>, experiencia: Option<int>,
                                       especialidades: Option<string>)

  /** The rows a successful registration inserts, with the handler's
      fallbacks for absent fields. */
  function NewUsuario(req: Registration): (u: Usuario)
    requires GivenText(req.name) && GivenText(req.email)
    ensures u.rol == Rol.Barbero && u.email == req.email.value
    ensures (u.nombre, u.apellido) == SplitName(req.name.value)
    ensures u.telefono.Some? <==> GivenText(req.phone)
  {
    var (nombre, apellido) := SplitName(req.name.value);
    Usuario(req.email.value, nombre, apellido, if GivenText(req.phone) then req.phone else None, Rol.Barbero)
  }

  function NewBarbero(req: Registration, usuario: int): (b: Barbero)
    ensures b.usuario == usuario && b.estado == BarberoEstadoInicial
    ensures b.turno == if GivenText(req.turno) then req.turno.value else "manana"
    ensures b.experiencia == if GivenNumber(req.experiencia) then req.experiencia.value else 0
    ensures b.especialidades == if GivenText(req.especialidades) then req.especialidades.value else "General"
  {
    Barbero.Barbero(usuario,
            if GivenText(req.turno) then req.turno.value else "manana",
            BarberoEstadoInicial,
            if GivenNumber(req.experiencia) then req.experiencia.value else 0,
            if GivenText(req.especialidades) then req.especialidades.value else "General")
  }

  /** POST /barberos/register: one usuario and one barbero row, inserted
      together; a used e-mail is refused with nothing written, so e-mails
      stay unique. */
  method RegisterBarber(db: Db, actor: Actor, req: Registration) returns (r: Result<int>)
    requires db.Valid()
    modifies db`usuarios, db`barberos, db`nextUsuario, db`nextBarbero
    ensures db.Valid()
    ensures r.Err? ==> unchanged(db)
    ensures actor.rol != SuperAdmin ==> r == Err(Forbidden)
    ensures actor.rol == SuperAdmin && !(GivenText(req.name) && GivenText(req.email) && GivenText(req.password)) ==>
      r == Err(BadRequest)
    ensures actor.rol == SuperAdmin && GivenText(req.name) && GivenText(req.email) && GivenText(req.password) ==>
      (EmailTaken(old(db.usuarios), req.email.value) ==> r == Err(Conflict)) &&
      (r.Ok? <==> !EmailTaken(old(db.usuarios), req.email.value))
    ensures r.Ok? ==>
      GivenText(req.name) && GivenText(req.email) &&
      var u := old(db.nextUsuario);
      u !in old(db.usuarios) && r.value !in old(db.barberos) &&
      db.usuarios == old(db.usuarios)[u := NewUsuario(req)] &&
      db.barberos == old(db.barberos)[r.value := NewBarbero(req, u)]
    ensures r.Ok? ==>
      r.value == old(db.nextBarbero) && db.usuarios[db.barberos[r.value].usuario] == NewUsuario(req) &&
      (r.value, db.barberos[r.value]) in ActiveBarbers(db.barberos, db.usuarios, db.nextBarbero)
  {
    if actor.rol != SuperAdmin {
      return Err(Forbidden);
    }
    if !(GivenText(req.name) && GivenText(req.email) && GivenText(req.password)) {
      return Err(BadRequest);
    }
    if EmailTaken(db.usuarios, req.email.value) {
      return Err(Conflict);
    }
    var b := Enroll(db, req);
    r := Ok(b);
  }

  /** The inserts of a registration that passed its checks: the usuario row
      and then the barbero row, each under the next serial id. */
  method Enroll(db: Db, req: Registration) returns (b: int)
    requires db.Valid() && GivenText(req.name) && GivenText(req.email)
    requires !EmailTaken(db.usuarios, req.email.value)
    modifies db`usuarios, db`barberos, db`nextUsuario, db`nextBarbero
    ensures db.Valid()
    ensures var u := old(db.nextUsuario);
      b == old(db.nextBarbero) && u !in old(db.usuarios) && b !in old(db.barberos) &&
      db.usuarios == old(db.usuarios)[u := NewUsuario(req)] &&
      db.barberos == old(db.barberos)[b := NewBarbero(req, u)]
    ensures db.usuarios[db.barberos[b].usuario] == NewUsuario(req) &&
      (b, db.barberos[b]) in ActiveBarbers(db.barberos, db.usuarios, db.nextBarbero)
  {
    var u := db.nextUsuario;
    b := db.nextBarbero;
    RegisteredBarberListed(db.barberos, db.usuarios, req, u, b);
    db.usuarios := db.usuarios[u := NewUsuario(req)];
    db.nextUsuario := u + 1;
    db.barberos := db.barberos[b := NewBarbero(req, u)];
    db.nextBarbero := b + 1;
  }

  /** A freshly registered barber, stored under the next serial id, is in
      the public list and passes the booking guard's barber checks. */
  lemma {:induction false} RegisteredBarberListed(bs: map<int, Barbero>, us: map<int, Usuario>, req: Registration,
                                                  u: int, b: int)
    requires GivenText(req.name) && GivenText(req.email)
    requires b >= 1 && forall id :: id in bs ==> 1 <= id < b
    ensures var bs', us' := bs[b := NewBarbero(req, u)], us[u := NewUsuario(req)];
      (b, bs'[b]) in ActiveBarbers(bs', us', b + 1) &&
      b in bs' && bs'[b].estado != Inactivo && bs'[b].usuario == u
  {
    var bs', us' := bs[b := NewBarbero(req, u)], us[u := NewUsuario(req)];
    assert BarberoEstadoInicial != Inactivo;
    assert forall id :: id in bs' ==> 1 <= id < b + 1;
  }

  /** DELETE /barberos/:id: a soft delete; the row stays and only its
      estado becomes inactivo. */
  method DeactivateBarber(db: Db, actor: Actor, id: int) returns (r: Result<()>)
    requires db.Valid()
    modifies db`barberos
    ensures db.Valid()
    ensures r.Err? ==> unchanged(db)
    ensures actor.rol != SuperAdmin ==> r == Err(Forbidden)
    ensures actor.rol == SuperAdmin && id !in old(db.barberos) ==> r == Err(NotFound)
    ensures r.Ok? <==> actor.rol == SuperAdmin && id in old(db.barberos)
    ensures r.Ok? ==> db.barberos == old(db.barberos)[id := old(db.barberos)[id].(estado := Inactivo)]
  {
    if actor.rol != SuperAdmin {
      return Err(Forbidden);
    }
    if id !in db.barberos {
      return Err(NotFound);
    }
    db.barberos := db.barberos[id := db.barberos[id].(estado := Inactivo)];
    r := Ok(());
  }

  /** A deactivated barber is refused by the booking guard with 409 and
      left out of the public list. */
  lemma {:induction false} DeactivatedNotBookable(bs: map<int, Barbero>, us: map<int, Usuario>, next: int,
                                                  sv: map<int, Servicio>, id: int,
                                                  req: Reservations.BookingRequest, now: int)
    requires id in bs
    requires GivenNumber(req.barbero) && req.barbero.value == id
    requires GivenNumber(req.servicio) && req.fechaHora.Some? && req.fechaHora.value > now
    ensures Reservations.BookingGuard(bs[id := bs[id].(estado := Inactivo)], sv, req, now) == Some(Conflict)
    ensures forall e :: e in ActiveBarbers(bs[id := bs[id].(estado := Inactivo)], us, next) ==> e.0 != id
  {
    var out := ActiveBarbers(bs[id := bs[id].(estado := Inactivo)], us, next);
    forall e | e in out
      ensures e.0 != id
    {
      var i :| 0 <= i < |out| && out[i] == e;
      assert out[i].1.estado != Inactivo;
    }
  }

  /** Body of PUT /barberos/:id; every column is overwritten. */
  datatype BarberUpdate = BarberUpdate(turno: string, estado: string, experiencia: int, especialidades: string)

  /** PUT /barberos/:id: 404 unknown, 409 inactive, 403 unless the caller is
      an administrator or the barber themself; then the four columns are set. */
  method UpdateBarber(db: Db, actor: Actor, id: int, req: BarberUpdate) returns (r: Result<Barbero>)
    requires db.Valid()
    modifies db`barberos
    ensures db.Valid()
    ensures r.Err? ==> unchanged(db)
    ensures id !in old(db.barberos) ==> r == Err(NotFound)
    ensures id in old(db.barberos) ==>
      var b := old(db.barberos)[id];
      (b.estado == Inactivo ==> r == Err(Conflict)) &&
      (b.estado != Inactivo && actor.rol != SuperAdmin && b.usuario != actor.id ==> r == Err(Forbidden)) &&
      (r.Ok? <==> b.estado != Inactivo && (actor.rol == SuperAdmin || b.usuario == actor.id)) &&
      (r.Ok? ==> r.value == Barbero.Barbero(b.usuario, req.turno, req.estado, req.experiencia, req.especialidades) &&
                 db.barberos == old(db.barberos)[id := r.value])
  {
    if id !in db.barberos {
      return Err(NotFound);
    }
    var b := db.barberos[id];
    if b.estado == Inactivo {
      return Err(Conflict);
    }
    if actor.rol != SuperAdmin && b.usuario != actor.id {
      return Err(Forbidden);
    }
    var row := b.(turno := req.turno, estado := req.estado, experiencia := req.experiencia, especialidades := req.especialidades);
    db.barberos := db.barberos[id := row];
    r := Ok(row);
  }
}
