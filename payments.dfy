/** The simulated payment of a confirmed reservation. */
module Payments {
  import opened Base
  import opened Tables

  function MetodoName(m: Metodo): string
  {
    match m
    case Efectivo => "efectivo"
    case Tarjeta => "tarjeta"
  }

  /** The payment method whitelist. */
  function ParseMetodo(s: string): (m: Option<Metodo>)
    ensures m.Some? <==> s == "efectivo" || s == "tarjeta"
    ensures m.Some? ==> MetodoName(m.value) == s
  {
    if s == "efectivo" then Some(Efectivo)
    else if s == "tarjeta" then Some(Tarjeta)
    else None
  }

  lemma MetodoRoundTrip(m: Metodo)
    ensures ParseMetodo(MetodoName(m)) == Some(m)
  {
  }

  /** The reservation can be paid by this caller: it is theirs, it is
      confirmed, and the join with its service finds a row. */
  predicate Payable(rs: map<int, Reserva>, sv: map<int, Servicio>, id: int, actor: Actor)
  {
    id in rs && rs[id].usuario == actor.id && rs[id].estado == Confirmada && rs[id].servicio in sv
  }

  /** SELECT * FROM pagos WHERE reserva_id = id finds a row. */
  predicate Paid(pagos: seq<Pago>, id: int)
  {
    exists i | 0 <= i < |pagos| :: pagos[i].reserva == id
  }

  /** POST /pagos.  On success exactly one row, charging the service's
      price, is appended; at most one payment per reservation is kept. */
  method Pay(db: Db, actor: Actor, reserva: Option<int>, metodo: Option<string>) returns (r: Result<Pago>)
    requires db.Valid()
    modifies db`pagos
    ensures db.Valid()
    ensures r.Err? ==> unchanged(db)
    ensures !(GivenNumber(reserva) && GivenText(metodo)) ==> r == Err(BadRequest)
    ensures GivenNumber(reserva) && GivenText(metodo) ==>
      var id := reserva.value;
      (ParseMetodo(metodo.value).None? ==> r == Err(BadRequest)) &&
      (ParseMetodo(metodo.value).Some? && !Payable(db.reservas, db.servicios, id, actor) ==> r == Err(NotFound)) &&
      (ParseMetodo(metodo.value).Some? && Payable(db.reservas, db.servicios, id, actor) && Paid(old(db.pagos), id) ==> r == Err(Conflict)) &&
      (r.Ok? <==> ParseMetodo(metodo.value).Some? && Payable(db.reservas, db.servicios, id, actor) && !Paid(old(db.pagos), id)) &&
      (r.Ok? ==> r.value == Pago(id, ParseMetodo(metodo.value).value, db.servicios[db.reservas[id].servicio].precio) &&
                 db.pagos == old(db.pagos) + [r.value])
  {
    if !(GivenNumber(reserva) && GivenText(metodo)) {
      return Err(BadRequest);
    }
    var m := ParseMetodo(metodo.value);
    if m.None? {
      return Err(BadRequest);
    }
    var id := reserva.value;
    if !Payable(db.reservas, db.servicios, id, actor) {
      return Err(NotFound);
    }
    if Paid(db.pagos, id) {
      return Err(Conflict);
    }
    var p := Pago(id, m.value, db.servicios[db.reservas[id].servicio].precio);
    db.pagos := db.pagos + [p];
    r := Ok(p);
  }

  /** An appended payment makes its reservation count as paid, so `Pay`
      refuses a second payment for it with 409. */
  lemma {:induction false} SecondPaymentRefused(pagos: seq<Pago>, p: Pago)
    ensures Paid(pagos + [p], p.reserva)
  {
    assert (pagos + [p])[|pagos|] == p;
  }

  /** Two payment requests for the same reservation in a row: once the first
      one is accepted, the second is refused with 409 and records nothing;
      a refused first request is refused again with the same reply. */
  method PayTwice(db: Db, actor: Actor, reserva: Option<int>, metodo: Option<string>)
    returns (first: Result<Pago>, second: Result<Pago>)
    requires db.Valid()
    modifies db`pagos
    ensures db.Valid()
    ensures first.Ok? ==> second == Err(Conflict) && db.pagos == old(db.pagos) + [first.value]
    ensures first.Err? ==> second == first && unchanged(db)
  {
    first := Pay(db, actor, reserva, metodo);
    if first.Ok? {
      SecondPaymentRefused(old(db.pagos), first.value);
    }
    second := Pay(db, actor, reserva, metodo);
  }
}
