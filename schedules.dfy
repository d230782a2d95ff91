/** The public availability view of one barber's day, and the barber's
    manual block/unblock of a horario row. */
module Schedules {
  import opened Base
  import opened Slots
  import opened Tables
  import opened Ledger

  /** A horario row as the view returns it; `inicio` is hora_inicio in
      minutes since midnight. */
  datatype HorarioRow = HorarioRow(id: int, inicio: int, disponible: bool)

  /** The rows of (barbero, day) with half-hour index `from` or later, in
      hora_inicio order. */
  function DayRows(h: map<SlotKey, Horario>, barbero: int, day: int, from: nat): (rows: seq<HorarioRow>)
    decreases SlotsPerDay - from
    ensures forall i :: 0 <= i < |rows| ==>
      from * SlotMinutes <= rows[i].inicio < MinutesPerDay && rows[i].inicio % SlotMinutes == 0 &&
      SlotKey(barbero, day, rows[i].inicio / SlotMinutes) in h &&
      h[SlotKey(barbero, day, rows[i].inicio / SlotMinutes)] == Horario(rows[i].id, rows[i].disponible)
    ensures forall i, j :: 0 <= i < j < |rows| ==> rows[i].inicio < rows[j].inicio
    ensures forall x :: from <= x < SlotsPerDay && SlotKey(barbero, day, x) in h ==>
      HorarioRow(h[SlotKey(barbero, day, x)].id, x * SlotMinutes, h[SlotKey(barbero, day, x)].disponible) in rows
  {
    if from >= SlotsPerDay then []
    else
      var rest := DayRows(h, barbero, day, from + 1);
      var k := SlotKey(barbero, day, from);
      if k in h then [HorarioRow(h[k].id, from * SlotMinutes, h[k].disponible)] + rest else rest
  }

  /** An active reservation as the view's query returns it: fecha_hora in
      minutes and the service's duracion_min (0 when missing). */
  datatype Booking = Booking(inicio: int, duracion: int)

  /** The active reservations of the barber starting on `day`, joined with
      their services. */
  function DayBookings(rs: map<int, Reserva>, sv: map<int, Servicio>, barbero: int, day: int): (bs: set<Booking>)
    ensures forall b :: b in bs <==>
      exists id :: id in rs && rs[id].barbero == barbero && Active(rs[id].estado) &&
                   rs[id].inicio / MinutesPerDay == day && rs[id].servicio in sv &&
                   b == Booking(rs[id].inicio, sv[rs[id].servicio].duracion)
  {
    set id | id in rs && rs[id].barbero == barbero && Active(rs[id].estado) &&
             rs[id].inicio / MinutesPerDay == day && rs[id].servicio in sv
           :: Booking(rs[id].inicio, sv[rs[id].servicio].duracion)
  }

  /** A missing (or zero) duration counts as 30 minutes. */
  function EffectiveDuration(d: int): (e: int)
    ensures d != 0 ==> e == d
    ensures d == 0 ==> NumSlots(e) == 1
  {
    if d == 0 then SlotMinutes else d
  }

  /** The booking's i-th half-hour start falls on clock time `hora` (minutes
      since midnight), for some i below its slot count. */
  predicate CoversTime(b: Booking, hora: int)
  {
    exists i | 0 <= i < NumSlots(EffectiveDuration(b.duracion)) :: SlotTime(b.inicio, i) % MinutesPerDay == hora
  }

  /** The inner loop of the view: try each half-hour start of the booking. */
  method Covers(b: Booking, hora: int) returns (covered: bool)
    ensures covered == CoversTime(b, hora)
  {
    var n := NumSlots(EffectiveDuration(b.duracion));
    var i := 0;
    while i < n
      invariant 0 <= i <= n
      invariant forall j :: 0 <= j < i ==> SlotTime(b.inicio, j) % MinutesPerDay != hora
    {
      if SlotTime(b.inicio, i) % MinutesPerDay == hora {
        return true;
      }
      i := i + 1;
    }
    return false;
  }

  /** The row's start on `day` is not after now. */
  predicate Past(day: int, row: HorarioRow, now: int)
  {
    day * MinutesPerDay + row.inicio <= now
  }

  predicate Taken(bookings: seq<Booking>, hora: int)
  {
    exists j | 0 <= j < |bookings| :: CoversTime(bookings[j], hora)
  }

  /** A row is shown available iff it is still ahead, no active booking
      covers it, and its stored flag is set. */
  predicate Shown(day: int, row: HorarioRow, bookings: seq<Booking>, now: int)
  {
    !Past(day, row, now) && !Taken(bookings, row.inicio) && row.disponible
  }

  /** GET /horarios/:barberoId/:fecha: the rows in their order, each with
      only `disponible` recomputed. */
  method Availability(rows: seq<HorarioRow>, day: int, bookings: seq<Booking>, now: int) returns (out: seq<HorarioRow>)
    ensures |out| == |rows|
    ensures forall i :: 0 <= i < |rows| ==> out[i].id == rows[i].id && out[i].inicio == rows[i].inicio
    ensures forall i :: 0 <= i < |rows| ==> (out[i].disponible <==> Shown(day, rows[i], bookings, now))
  {
    out := [];
    var i := 0;
    while i < |rows|
      invariant 0 <= i <= |rows| && |out| == i
      invariant forall j :: 0 <= j < i ==> out[j] == rows[j].(disponible := Shown(day, rows[j], bookings, now))
    {
      var row := rows[i];
      var taken := false;
      var j := 0;
      while j < |bookings| && !taken
        invariant 0 <= j <= |bookings|
        invariant taken <==> exists m | 0 <= m < j :: CoversTime(bookings[m], row.inicio)
      {
        taken := Covers(bookings[j], row.inicio);
        j := j + 1;
      }
      var yaPaso := day * MinutesPerDay + row.inicio <= now;
      out := out + [row.(disponible := !yaPaso && !taken && row.disponible)];
      i := i + 1;
    }
  }

  /** A booking with no duration covers exactly its own start time. */
  lemma {:induction false} DefaultCoversOne(start: int, hora: int)
    ensures CoversTime(Booking(start, 0), hora) <==> start % MinutesPerDay == hora
  {
    assert NumSlots(EffectiveDuration(0)) == 1;
    if start % MinutesPerDay == hora {
      assert SlotTime(start, 0) == start;
    }
  }

  /** Within one day, a booking covers the ceil(d/30) consecutive half-hour
      starts beginning at its own start, and no other clock time. */
  lemma {:induction false} CoversConsecutive(b: Booking, hora: int)
    requires b.inicio % MinutesPerDay + SlotMinutes * NumSlots(EffectiveDuration(b.duracion)) <= MinutesPerDay
    ensures var s, n := b.inicio % MinutesPerDay, NumSlots(EffectiveDuration(b.duracion));
      CoversTime(b, hora) <==> s <= hora < s + SlotMinutes * n && (hora - s) % SlotMinutes == 0
  {
    var s, n := b.inicio % MinutesPerDay, NumSlots(EffectiveDuration(b.duracion));
    var q := b.inicio / MinutesPerDay;
    forall i | 0 <= i < n
      ensures SlotTime(b.inicio, i) % MinutesPerDay == s + SlotMinutes * i
    {
      assert SlotTime(b.inicio, i) == MinutesPerDay * q + (s + SlotMinutes * i);
    }
    if s <= hora < s + SlotMinutes * n && (hora - s) % SlotMinutes == 0 {
      var i := (hora - s) / SlotMinutes;
      assert hora == s + SlotMinutes * i;
      assert SlotTime(b.inicio, i) % MinutesPerDay == hora;
    }
  }

  /** Every half-hour start of an active reservation of that day is shown
      taken, whatever the stored flag says, once the view is given all of
      the day's active bookings. */
  lemma {:induction false} BookedSlotShownTaken(rs: map<int, Reserva>, sv: map<int, Servicio>, barbero: int, day: int,
                                                bookings: seq<Booking>, now: int, id: int, i: int, row: HorarioRow)
    requires forall b :: b in DayBookings(rs, sv, barbero, day) ==> b in bookings
    requires id in rs && rs[id].barbero == barbero && Active(rs[id].estado)
    requires rs[id].inicio / MinutesPerDay == day && rs[id].servicio in sv
    requires 0 <= i < NumSlots(EffectiveDuration(sv[rs[id].servicio].duracion))
    requires row.inicio == SlotTime(rs[id].inicio, i) % MinutesPerDay
    ensures !Shown(day, row, bookings, now)
  {
    var b := Booking(rs[id].inicio, sv[rs[id].servicio].duracion);
    assert b in DayBookings(rs, sv, barbero, day);
    assert CoversTime(b, row.inicio);
    var j :| 0 <= j < |bookings| && bookings[j] == b;
    assert CoversTime(bookings[j], row.inicio);
  }

  /** With the ledger sound, no row an active reservation holds is shown
      available. */
  lemma {:induction false} HeldRowNotShown(h: map<SlotKey, Horario>, rs: map<int, Reserva>, sv: map<int, Servicio>,
                                           day: int, bookings: seq<Booking>, now: int, id: int, k: SlotKey, i: int)
    requires Sound(h, rs, sv) && Holds(rs, sv, id, k) && k.day == day
    requires 0 <= i < |DayRows(h, k.barbero, day, 0)| && DayRows(h, k.barbero, day, 0)[i].inicio == k.index * SlotMinutes
    ensures !Shown(day, DayRows(h, k.barbero, day, 0)[i], bookings, now)
  {
    var row := DayRows(h, k.barbero, day, 0)[i];
    assert row.inicio / SlotMinutes == k.index;
    assert SlotKey(k.barbero, day, k.index) == k;
    assert !h[k].disponible;
  }

  /** The caller is the barber owning some row with this id. */
  predicate OwnsRow(h: map<SlotKey, Horario>, bs: map<int, Barbero>, id: int, actor: Actor)
  {
    exists k | k in h :: h[k].id == id && k.barbero in bs && bs[k.barbero].usuario == actor.id
  }

  /** PUT /horarios/:id/disponibilidad: only the owning barber (403
      otherwise); the row's flag is set to the given value and no other
      row changes. */
  method SetDisponibilidad(db: Db, actor: Actor, id: int, disponible: bool) returns (r: Result<Horario>)
    requires db.Valid()
    modifies db`horarios
    ensures db.Valid()
    ensures r.Err? ==> unchanged(db) && r.failure == Forbidden
    ensures r.Ok? <==> OwnsRow(old(db.horarios), db.barberos, id, actor)
    ensures r.Ok? ==>
      r.value == Horario(id, disponible) &&
      exists k | k in old(db.horarios) :: old(db.horarios)[k].id == id &&
                                         db.horarios == old(db.horarios)[k := Horario(id, disponible)]
  {
    if !OwnsRow(db.horarios, db.barberos, id, actor) {
      return Err(Forbidden);
    }
    var k :| k in db.horarios && db.horarios[k].id == id && k.barbero in db.barberos && db.barberos[k.barbero].usuario == actor.id;
    MarkIdOneRow(db.horarios, k, disponible);
    db.horarios := MarkId(db.horarios, id, disponible);
    r := Ok(Horario(id, disponible));
  }
}
