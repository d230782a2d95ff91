/** The database tables the handlers read and write, held by one object
    whose fields the handlers reassign. */
module Tables {
  import opened Base
  import opened Slots

  /** reservas.estado */
  datatype Estado = Pendiente | Confirmada | Completada | Cancelada

  /** A reservation holds its slots while it is pending or confirmed. */
  predicate Active(e: Estado)
  {
    e == Pendiente || e == Confirmada
  }

  /** reservas row; `inicio` is fecha_hora in minutes. */
  datatype Reserva = Reserva(usuario: int, barbero: int, servicio: int, inicio: int, estado: Estado)

  /** servicios row; prices are whole currency units. */
  datatype Servicio = Servicio(nombre: string, descripcion: string, precio: int, duracion: int, activo: bool)

  /** barberos row; `estado` is free text ("activo", "inactivo", ...). */
  datatype Barbero = Barbero(usuario: int, turno: string, estado: string, experiencia: int, especialidades: string)

  /** usuarios row (credentials are not modelled). */
  datatype Usuario = Usuario(email: string, nombre: string, apellido: string, telefono: Option<string>, rol: Rol)

  datatype Metodo = Efectivo | Tarjeta

  /** pagos row. */
  datatype Pago = Pago(reserva: int, metodo: Metodo, monto: int)

  const Inactivo: string := "inactivo"
  /** Column defaults of the schema, which is not part of this model. */
  const EstadoInicial: Estado := Confirmada
  const BarberoEstadoInicial: string := "activo"

  /** Every stored service passed the create/update guards. */
  ghost predicate CatalogSound(sv: map<int, Servicio>)
  {
    forall id :: id in sv ==> sv[id].precio > 0 && sv[id].duracion > 0
  }

  /** At most one payment per reservation. */
  ghost predicate OnePaymentEach(pagos: seq<Pago>)
  {
    forall i, j :: 0 <= i < j < |pagos| ==> pagos[i].reserva != pagos[j].reserva
  }

  ghost predicate UniqueEmails(us: map<int, Usuario>)
  {
    forall a, b :: a in us && b in us && us[a].email == us[b].email ==> a == b
  }

  /** The database: one field per table, plus the serial counters. */
  class Db {
    var usuarios: map<int, Usuario>
    var barberos: map<int, Barbero>
    var servicios: map<int, Servicio>
    var horarios: map<SlotKey, Horario>
    var reservas: map<int, Reserva>
    var pagos: seq<Pago>
    var nextUsuario: int
    var nextBarbero: int
    var nextServicio: int
    var nextReserva: int

    /** Keys are serials from 1 and stay below their counters; horario ids are a primary
        key; e-mails are unique; the catalog and payment guards have held
        for every stored row. */
    ghost predicate Valid()
      reads this
    {
      (forall id :: id in usuarios ==> 1 <= id < nextUsuario) &&
      (forall id :: id in barberos ==> 1 <= id < nextBarbero) &&
      (forall id :: id in servicios ==> 1 <= id < nextServicio) &&
      (forall id :: id in reservas ==> 1 <= id < nextReserva) &&
      nextUsuario >= 1 && nextBarbero >= 1 && nextServicio >= 1 && nextReserva >= 1 &&
      UniqueIds(horarios) && UniqueEmails(usuarios) &&
      CatalogSound(servicios) && OnePaymentEach(pagos)
    }

    /** A database whose horario rows were generated beforehand and whose other tables are empty. */
    constructor (grid: map<SlotKey, Horario>)
      requires UniqueIds(grid)
      ensures Valid()
      ensures horarios == grid && usuarios == map[] && barberos == map[] && servicios == map[]
      ensures reservas == map[] && pagos == []
    {
      usuarios, barberos, servicios, horarios, reservas, pagos := map[], map[], map[], grid, map[], [];
      nextUsuario, nextBarbero, nextServicio, nextReserva := 1, 1, 1, 1;
    }

    /** The claim loop: `for (const slotId of occupiedSlots)` set that row unavailable. */
    method Claim(ids: seq<int>)
      modifies this`horarios
      ensures horarios == MarkIds(old(horarios), ids, false)
    {
      var j := 0;
      while j < |ids|
        invariant 0 <= j <= |ids|
        invariant horarios == MarkIds(old(horarios), ids[..j], false)
      {
        assert ids[..j + 1] == ids[..j] + [ids[j]];
        horarios := MarkId(horarios, ids[j], false);
        j := j + 1;
      }
      assert ids[..j] == ids;
    }

    /** The release loop: for each of the n slots from `start`, set the row
        covering that time available, when there is one. */
    method Release(barbero: int, start: int, n: nat)
      modifies this`horarios
      ensures horarios == SetSpan(old(horarios), barbero, start, n, true)
    {
      var i := 0;
      while i < n
        invariant 0 <= i <= n
        invariant horarios == SetSpan(old(horarios), barbero, start, i, true)
      {
        var k := KeyAt(barbero, SlotTime(start, i));
        SpanSlot(barbero, start, i + 1, i);
        forall k' | InSpan(k', barbero, start, i + 1) && !InSpan(k', barbero, start, i)
          ensures k' == k
        {
          BucketDeterminesKey(k', k);
        }
        if k in horarios {
          horarios := horarios[k := horarios[k].(disponible := true)];
        }
        i := i + 1;
      }
    }
  }
}
