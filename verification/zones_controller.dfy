/** The zone endpoints over the stored zones, kept as a map from id to zone. */
module ZonesController {
  import opened Common
  import opened Domain

  /** The `ZoneCreate` body: id, name and zone type. */
  datatype ZoneCreate = ZoneCreate(id: int, nombre: string, tipo: ZoneType)

  /** `crear_zona`: 400 when the id is taken, otherwise the zone is stored
      with the current time (201). */
  function CrearZona(zones: map<int, Zone>, data: ZoneCreate, now: Time): (r: (map<int, Zone>, Reply<Zone>))
    ensures data.id in zones ==> r == (zones, Fail(BadRequest))
    ensures data.id !in zones ==>
              && r.1 == Created(Zone(data.id, data.nombre, data.tipo, now))
              && r.0.Keys == zones.Keys + {data.id}
              && r.0[data.id] == r.1.body
              && forall k :: k in zones ==> r.0[k] == zones[k]
  {
    if data.id in zones then (zones, Fail(BadRequest))
    else
      var zona := Zone(data.id, data.nombre, data.tipo, now);
      (zones[data.id := zona], Created(zona))
  }

  /** `obtener_zona`: the zone, or 404. */
  function ObtenerZona(zones: map<int, Zone>, id: int): (r: Reply<Zone>)
    ensures r.Fail? <==> id !in zones
    ensures r.Fail? ==> r.error == NotFound
    ensures r.Ok? ==> r.body == zones[id]
  {
    if id in zones then Ok(zones[id]) else Fail(NotFound)
  }

  /** `eliminar_zona`: 404 for an unknown id, otherwise the zone is removed. */
  function EliminarZona(zones: map<int, Zone>, id: int): (r: (map<int, Zone>, Reply<DeleteNote>))
    ensures id !in zones ==> r == (zones, Fail(NotFound))
    ensures id in zones ==> r.1 == Ok(Removed) && r.0.Keys == zones.Keys - {id}
                            && forall k :: k in r.0 ==> r.0[k] == zones[k]
  {
    if id !in zones then (zones, Fail(NotFound))
    else (zones - {id}, Ok(Removed))
  }

  /** A created zone can be read back; creating it again answers 400; after
      deleting it, reading and deleting answer 404. */
  lemma ZoneLifecycle(zones: map<int, Zone>, data: ZoneCreate, t1: Time, t2: Time)
    requires data.id !in zones
    ensures var created := CrearZona(zones, data, t1).0;
            && ObtenerZona(created, data.id) == Ok(Zone(data.id, data.nombre, data.tipo, t1))
            && CrearZona(created, data, t2) == (created, Fail(BadRequest))
            && var removed := EliminarZona(created, data.id).0;
               && EliminarZona(created, data.id).1 == Ok(Removed)
               && ObtenerZona(removed, data.id) == Fail(NotFound)
               && EliminarZona(removed, data.id) == (removed, Fail(NotFound))
               && removed == zones
  {
  }
}
