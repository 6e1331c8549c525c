/** The resource endpoints: create in a zone, update quantity and state, and
    delete with its three-way answer. Zone existence is a set of zone ids. */
module ResourcesController {
  import opened Common
  import opened Domain
  import opened SeqStore
  import opened ResourceRepository
  import opened ResourceSchema

  /** The record `crear_recurso` hands to the repository. */
  function NewResource(zonaId: int, data: ResourceCreate, now: Time): Resource
  {
    Resource(0, zonaId, data.nombre, data.tipo, data.cantidadUnitaria, data.peso,
             data.duracionRecoleccion, data.hormigasRequeridas, Disponible, now, None)
  }

  /** `crear_recurso`: 404 for an unknown zone, 409 when the zone already has
      a resource of that name, otherwise a new `disponible` resource (201). */
  function CrearRecurso(st: Store, zones: set<int>, zonaId: int, data: ResourceCreate, now: Time): (r: (Store, Reply<Resource>))
    ensures zonaId !in zones ==> r == (st, Fail(NotFound))
    ensures zonaId in zones && NameExistsInZone(st, data.nombre, zonaId) ==> r == (st, Fail(Conflict))
    ensures r.1.Created? ==>
              && zonaId in zones && !NameExistsInZone(st, data.nombre, zonaId)
              && r.1.body.zonaId == zonaId && r.1.body.nombre == data.nombre && r.1.body.tipo == data.tipo
              && r.1.body.estado == Disponible && r.1.body.horaCreacion == now && r.1.body.horaRecoleccion.None?
              && r.1.body.cantidadUnitaria == data.cantidadUnitaria && r.1.body.peso == data.peso
              && r.1.body.duracionRecoleccion == data.duracionRecoleccion
              && r.1.body.hormigasRequeridas == data.hormigasRequeridas
              && r.0.records == st.records + [r.1.body]
              && (forall i :: 0 <= i < |st.records| ==> st.records[i].id < r.1.body.id)
              && (|st.records| == 0 ==> r.1.body.id == 1)
              && r.0.deletedIds == st.deletedIds
    ensures r.1.Created? || r.1 == Fail(NotFound) || r.1 == Fail(Conflict)
    ensures zonaId in zones && !NameExistsInZone(st, data.nombre, zonaId) ==> r.1.Created?
  {
    if zonaId !in zones then (st, Fail(NotFound))
    else if NameExistsInZone(st, data.nombre, zonaId) then (st, Fail(Conflict))
    else
      var (after, created) := Create(st, NewResource(zonaId, data, now));
      (after, Created(created))
  }

  /** Creating the same resource twice in one zone: the second call is refused
      with 409 and stores nothing. */
  lemma CrearRecursoTwice(st: Store, zones: set<int>, zonaId: int, data: ResourceCreate, t1: Time, t2: Time)
    requires CrearRecurso(st, zones, zonaId, data, t1).1.Created?
    ensures var after := CrearRecurso(st, zones, zonaId, data, t1).0;
            CrearRecurso(after, zones, zonaId, data, t2) == (after, Fail(Conflict))
  {
    var (after, reply) := CrearRecurso(st, zones, zonaId, data, t1);
    assert after.records[|st.records|] == reply.body;
  }

  /** The stored resource after an accepted update: quantity replaced when
      given, the new state, and a fresh collection time when the target is
      `recolectado`. */
  function Applied(res: Resource, upd: ResourceUpdate, now: Time): Resource
  {
    var q := if upd.cantidadUnitaria.Some? then upd.cantidadUnitaria.value else res.cantidadUnitaria;
    var stamp := if upd.estado == Recolectado then Some(now) else res.horaRecoleccion;
    res.(cantidadUnitaria := q, horaRecoleccion := stamp, estado := upd.estado)
  }

  /** The quantity rule: a given quantity must satisfy `0 < q <= current`. */
  predicate QuantityAllowed(res: Resource, q: Option<int>)
  {
    q.None? || (0 < q.value <= res.cantidadUnitaria)
  }

  /** `actualizar_recurso`: 404 for an unknown id; 400 for a quantity that is
      not positive or exceeds the current one; otherwise the quantity, the
      state and (for `recolectado`) the collection time are written, any
      state is accepted, and every other field is kept. */
  function ActualizarRecurso(st: Store, id: int, upd: ResourceUpdate, now: Time): (r: (Store, Reply<Resource>))
    ensures GetById(st, id).None? ==> r == (st, Fail(NotFound))
    ensures GetById(st, id).Some? && !QuantityAllowed(GetById(st, id).value, upd.cantidadUnitaria) ==> r == (st, Fail(BadRequest))
    ensures r.1.Ok? ==>
              && GetById(st, id).Some?
              && var before := GetById(st, id).value;
              && QuantityAllowed(before, upd.cantidadUnitaria)
              && r.1.body == before.(cantidadUnitaria := r.1.body.cantidadUnitaria, estado := upd.estado,
                                     horaRecoleccion := r.1.body.horaRecoleccion)
              && (upd.cantidadUnitaria.Some? ==> r.1.body.cantidadUnitaria == upd.cantidadUnitaria.value)
              && (upd.cantidadUnitaria.None? ==> r.1.body.cantidadUnitaria == before.cantidadUnitaria)
              && r.1.body.cantidadUnitaria <= before.cantidadUnitaria
              && (upd.estado == Recolectado ==> r.1.body.horaRecoleccion == Some(now))
              && (upd.estado != Recolectado ==> r.1.body.horaRecoleccion == before.horaRecoleccion)
    ensures GetById(st, id).Some? && QuantityAllowed(GetById(st, id).value, upd.cantidadUnitaria) ==> r.1.Ok?
    ensures r.1.Ok? ==> r.0 == Update(st, id, r.1.body).0
  {
    match GetById(st, id)
    case None => (st, Fail(NotFound))
    case Some(res) =>
      if !QuantityAllowed(res, upd.cantidadUnitaria) then (st, Fail(BadRequest))
      else
        var written := Applied(res, upd, now);
        match Update(st, id, written)
        case (after, Some(u)) => (after, Ok(u))
        case (_, None) => (st, Fail(NotFound))
  }

  /** After an accepted update, reading the id back gives the answered record. */
  lemma ActualizarThenGet(st: Store, id: int, upd: ResourceUpdate, now: Time)
    requires ActualizarRecurso(st, id, upd, now).1.Ok?
    ensures GetById(ActualizarRecurso(st, id, upd, now).0, id) == Some(ActualizarRecurso(st, id, upd, now).1.body)
  {
    var k := FirstWithId(st.records, id).value;
    var (after, reply) := ActualizarRecurso(st, id, upd, now);
    assert after.records == st.records[k := reply.body];
    assert reply.body.id == id;
    assert after.records[k].id == id;
    assert forall j :: 0 <= j < k ==> after.records[j].id != id;
    assert FirstWithId(after.records, id) == Some(k);
  }

  /** `eliminar_recurso`: `deleted` answers 200, `already_deleted` 404, and
      `never_existed` 200 with the idempotent message. */
  function EliminarRecurso(st: Store, id: int): (r: (Store, Reply<DeleteNote>))
    ensures r.0 == Delete(st, id).0
    ensures GetById(st, id).Some? ==> r.1 == Ok(Removed)
    ensures GetById(st, id).None? && id in st.deletedIds ==> r.1 == Fail(NotFound)
    ensures GetById(st, id).None? && id !in st.deletedIds ==> r.1 == Ok(WasAbsent)
  {
    var (after, outcome) := Delete(st, id);
    match outcome
    case Deleted => (after, Ok(Removed))
    case AlreadyDeleted => (after, Fail(NotFound))
    case NeverExisted => (after, Ok(WasAbsent))
  }

  /** Deleting a resource and then retrying: 200, then 404. */
  lemma EliminarRecursoRetry(st: Store, id: int)
    requires UniqueKeys(st.records, IdOf)
    requires GetById(st, id).Some?
    ensures EliminarRecurso(st, id).1.StatusCode() == 200
    ensures EliminarRecurso(EliminarRecurso(st, id).0, id).1.StatusCode() == 404
  {
    DeleteTwice(st, id);
  }
}
