/** The half-hour slot grid: how a service duration becomes a number of
    slots, which horario row a point in time falls into, and the span of
    rows a booking occupies.  Time is counted in whole minutes. */
module Slots {

  const SlotMinutes: int := 30
  const MinutesPerDay: int := 1440
  const SlotsPerDay: int := 48

  /** A horario row's place in the grid: barber, day number, half-hour index of the day. */
  datatype SlotKey = SlotKey(barbero: int, day: int, index: int)

  /** The stored part of a horario row. */
  datatype Horario = Horario(id: int, disponible: bool)

  /** Math.ceil(duracion_min / 30.0); a loop `for i < numSlots` runs no
      iteration when that is zero or negative, so the count is a nat. */
  function NumSlots(duracion: int): (n: nat)
    ensures duracion <= 0 ==> n == 0
    ensures duracion > 0 ==> SlotMinutes * (n - 1) < duracion <= SlotMinutes * n
  {
    if duracion <= 0 then 0 else (duracion + SlotMinutes - 1) / SlotMinutes
  }

  lemma {:induction false} NumSlotsPositive(duracion: int)
    requires duracion > 0
    ensures NumSlots(duracion) >= 1
    ensures duracion <= SlotMinutes ==> NumSlots(duracion) == 1
  {
    var n := NumSlots(duracion);
    assert SlotMinutes * (n - 1) < duracion <= SlotMinutes * n;
  }

  /** Start of the i-th slot of a booking starting at `start`. */
  function SlotTime(start: int, i: int): int
  {
    start + SlotMinutes * i
  }

  /** The half-hour bucket counted from day 0, minute 0. */
  function Bucket(k: SlotKey): int
  {
    k.day * SlotsPerDay + k.index
  }

  predicate OnGrid(k: SlotKey)
  {
    0 <= k.index < SlotsPerDay
  }

  lemma DayBucket(t: int)
    ensures t / SlotMinutes == (t / MinutesPerDay) * SlotsPerDay + (t % MinutesPerDay) / SlotMinutes
  {
    var q, r := t / MinutesPerDay, t % MinutesPerDay;
    var a, c := r / SlotMinutes, r % SlotMinutes;
    assert t == SlotMinutes * (q * SlotsPerDay + a) + c;
  }

  /** The horario row (barber, fecha, hora_inicio <= t < hora_fin) a query for time t selects. */
  function KeyAt(barbero: int, t: int): (k: SlotKey)
    ensures k.barbero == barbero && OnGrid(k)
    ensures Bucket(k) == t / SlotMinutes
  {
    DayBucket(t);
    SlotKey(barbero, t / MinutesPerDay, (t % MinutesPerDay) / SlotMinutes)
  }

  /** Two grid keys of one barber in the same bucket are the same key. */
  lemma {:induction false} BucketDeterminesKey(k1: SlotKey, k2: SlotKey)
    requires OnGrid(k1) && OnGrid(k2) && k1.barbero == k2.barbero
    requires Bucket(k1) == Bucket(k2)
    ensures k1 == k2
  {
    assert (k1.day - k2.day) * SlotsPerDay == k2.index - k1.index;
  }

  lemma SlotBucket(start: int, i: int)
    ensures SlotTime(start, i) / SlotMinutes == start / SlotMinutes + i
  {
    var q, r := start / SlotMinutes, start % SlotMinutes;
    assert SlotTime(start, i) == SlotMinutes * (q + i) + r;
  }

  /** Key k is one of the n consecutive half-hour rows starting at `start`. */
  predicate InSpan(k: SlotKey, barbero: int, start: int, n: int)
  {
    k.barbero == barbero && OnGrid(k) &&
    start / SlotMinutes <= Bucket(k) < start / SlotMinutes + n
  }

  /** Slot i of a span is in the span exactly when 0 <= i < n, and distinct
      slots of a span fall into distinct rows. */
  lemma {:induction false} SpanSlot(barbero: int, start: int, n: int, i: int)
    ensures InSpan(KeyAt(barbero, SlotTime(start, i)), barbero, start, n) <==> 0 <= i < n
    ensures Bucket(KeyAt(barbero, SlotTime(start, i))) == start / SlotMinutes + i
  {
    SlotBucket(start, i);
  }

  /** Every key of a span is the row of one of its slots. */
  lemma {:induction false} SpanKey(k: SlotKey, barbero: int, start: int, n: int)
    requires InSpan(k, barbero, start, n)
    ensures var i := Bucket(k) - start / SlotMinutes;
      0 <= i < n && KeyAt(barbero, SlotTime(start, i)) == k
  {
    var i := Bucket(k) - start / SlotMinutes;
    SpanSlot(barbero, start, n, i);
    BucketDeterminesKey(KeyAt(barbero, SlotTime(start, i)), k);
  }

  lemma {:induction false} SpanSlotsDistinct(barbero: int, start: int, i: int, j: int)
    requires KeyAt(barbero, SlotTime(start, i)) == KeyAt(barbero, SlotTime(start, j))
    ensures i == j
  {
    SlotBucket(start, i);
    SlotBucket(start, j);
  }

  /** Every row of the span set to `v`: the effect of the release loop
      (UPDATE horarios SET disponible = true WHERE barber, fecha, time match)
      and, by ClaimIsSpan, of the claim loop. */
  function SetSpan(h: map<SlotKey, Horario>, barbero: int, start: int, n: int, v: bool): (h': map<SlotKey, Horario>)
    ensures h'.Keys == h.Keys
    ensures forall k :: k in h ==> h'[k].id == h[k].id
    ensures forall k :: k in h && !InSpan(k, barbero, start, n) ==> h'[k] == h[k]
    ensures forall k :: k in h && InSpan(k, barbero, start, n) ==> h'[k].disponible == v
  {
    map k | k in h :: if InSpan(k, barbero, start, n) then h[k].(disponible := v) else h[k]
  }

  /** UPDATE horarios SET disponible = v WHERE id = i: every row with that id. */
  function MarkId(h: map<SlotKey, Horario>, i: int, v: bool): (h': map<SlotKey, Horario>)
    ensures h'.Keys == h.Keys
    ensures forall k :: k in h ==> h'[k].id == h[k].id
    ensures forall k :: k in h ==> h'[k].disponible == if h[k].id == i then v else h[k].disponible
  {
    map k | k in h :: if h[k].id == i then h[k].(disponible := v) else h[k]
  }

  /** The claim loop `for (const slotId of occupiedSlots) UPDATE ... WHERE id = slotId`, as a whole. */
  function MarkIds(h: map<SlotKey, Horario>, ids: seq<int>, v: bool): (h': map<SlotKey, Horario>)
    ensures h'.Keys == h.Keys
    ensures forall k :: k in h ==> h'[k].id == h[k].id
    ensures forall k :: k in h ==> h'[k].disponible == if h[k].id in ids then v else h[k].disponible
  {
    map k | k in h :: if h[k].id in ids then h[k].(disponible := v) else h[k]
  }

  /** horarios.id is a primary key. */
  ghost predicate UniqueIds(h: map<SlotKey, Horario>)
  {
    forall k1, k2 :: k1 in h && k2 in h && h[k1].id == h[k2].id ==> k1 == k2
  }

  /** With unique ids, updating one id changes exactly the one row holding it. */
  lemma MarkIdOneRow(h: map<SlotKey, Horario>, k: SlotKey, v: bool)
    requires UniqueIds(h) && k in h
    ensures MarkId(h, h[k].id, v) == h[k := h[k].(disponible := v)]
  {
  }

  /** ids[i] is the id of the row of slot i, for every slot of the span. */
  ghost predicate SpanIds(h: map<SlotKey, Horario>, barbero: int, start: int, ids: seq<int>)
  {
    forall i :: 0 <= i < |ids| ==>
      KeyAt(barbero, SlotTime(start, i)) in h && ids[i] == h[KeyAt(barbero, SlotTime(start, i))].id
  }

  /** Marking the collected ids is marking exactly the span's rows. */
  lemma {:induction false} ClaimIsSpan(h: map<SlotKey, Horario>, barbero: int, start: int, ids: seq<int>, v: bool)
    requires UniqueIds(h) && SpanIds(h, barbero, start, ids)
    ensures MarkIds(h, ids, v) == SetSpan(h, barbero, start, |ids|, v)
  {
    var n := |ids|;
    forall k | k in h
      ensures (h[k].id in ids) <==> InSpan(k, barbero, start, n)
    {
      if h[k].id in ids {
        var i :| 0 <= i < n && ids[i] == h[k].id;
        assert KeyAt(barbero, SlotTime(start, i)) == k;
        SpanSlot(barbero, start, n, i);
      }
      if InSpan(k, barbero, start, n) {
        SpanKey(k, barbero, start, n);
        var i := Bucket(k) - start / SlotMinutes;
        assert ids[i] == h[k].id;
      }
    }
  }

  /** The collected ids still name the span's rows once another span was set. */
  lemma SpanIdsAfterSet(h: map<SlotKey, Horario>, barbero: int, start: int, ids: seq<int>,
                        b2: int, s2: int, n2: int, v: bool)
    requires SpanIds(h, barbero, start, ids)
    ensures SpanIds(SetSpan(h, b2, s2, n2, v), barbero, start, ids)
  {
  }
}
