/** The threat endpoints: create in a zone, the state machine of updates, and
    the deletion guard. Zone existence is a set of zone ids. */
module ThreatsController {
  import opened Common
  import opened Domain
  import opened ThreatRepository
  import opened ThreatSchema

  /** `crear_amenaza`: 404 for an unknown zone, otherwise a new `activa`
      threat with the given name, type and cost (201). */
  function CrearAmenaza(rows: seq<Threat>, zones: set<int>, zonaId: int, data: ThreatCreate, now: Time): (r: (seq<Threat>, Reply<Threat>))
    ensures zonaId !in zones <==> r.1 == Fail(NotFound)
    ensures zonaId !in zones ==> r.0 == rows
    ensures zonaId in zones ==>
              && r.1.Created?
              && r.1.body == Threat(r.1.body.id, zonaId, data.nombre, data.tipo, data.costoHormigas, Activa, now, None)
              && r.0 == rows + [r.1.body]
              && (forall i :: 0 <= i < |rows| ==> rows[i].id < r.1.body.id)
  {
    if zonaId !in zones then (rows, Fail(NotFound))
    else
      var (after, created) := Create(rows, Threat(0, zonaId, data.nombre, data.tipo, data.costoHormigas, Activa, now, None));
      (after, Created(created))
  }

  /** `actualizar_amenaza` for a target state: 404 for an unknown id;
      `resuelta` from `resuelta` answers the threat unchanged without
      writing; `resuelta` from `activa` is refused with 409; `resuelta` from
      `en_combate` stamps the resolution time; any other target is written
      whatever the current state. */
  function ActualizarAmenaza(rows: seq<Threat>, id: int, target: ThreatState, now: Time): (r: (seq<Threat>, Reply<Threat>))
    ensures GetById(rows, id).None? ==> r == (rows, Fail(NotFound))
    ensures GetById(rows, id).Some? ==>
              var t := GetById(rows, id).value;
              && (target == Resuelta && t.estado == Resuelta ==> r == (rows, Ok(t)))
              && (target == Resuelta && t.estado == Activa ==> r == (rows, Fail(Conflict)))
              && (target == Resuelta && t.estado == EnCombate ==>
                    r == (Update(rows, id, t.(estado := Resuelta, horaResolucion := Some(now))).0,
                          Ok(t.(estado := Resuelta, horaResolucion := Some(now)))))
              && (target != Resuelta ==> r == (Update(rows, id, t.(estado := target)).0, Ok(t.(estado := target))))
  {
    match GetById(rows, id)
    case None => (rows, Fail(NotFound))
    case Some(t) =>
      if target == Resuelta && t.estado == Resuelta then (rows, Ok(t))
      else if target == Resuelta && t.estado != EnCombate then (rows, Fail(Conflict))
      else
        var stamped := if target == Resuelta then t.(horaResolucion := Some(now)) else t;
        var written := stamped.(estado := target);
        (Update(rows, id, written).0, Ok(written))
  }

  /** A threat is answered as `resuelta` only if it was `en_combate` or
      already `resuelta`. */
  lemma ResolveOnlyFromCombat(rows: seq<Threat>, id: int, now: Time)
    requires ActualizarAmenaza(rows, id, Resuelta, now).1.Ok?
    ensures GetById(rows, id).Some?
    ensures GetById(rows, id).value.estado in {EnCombate, Resuelta}
    ensures ActualizarAmenaza(rows, id, Resuelta, now).1.body.estado == Resuelta
  {
  }

  /** Resolving is idempotent: resolving a resolved threat again, at any later
      time, answers the same threat and writes nothing. */
  lemma ResolveTwice(rows: seq<Threat>, id: int, t1: Time, t2: Time)
    requires ActualizarAmenaza(rows, id, Resuelta, t1).1.Ok?
    ensures var after := ActualizarAmenaza(rows, id, Resuelta, t1).0;
            ActualizarAmenaza(after, id, Resuelta, t2)
            == (after, Ok(ActualizarAmenaza(rows, id, Resuelta, t1).1.body))
  {
    var t := GetById(rows, id).value;
    var (after, reply) := ActualizarAmenaza(rows, id, Resuelta, t1);
    if t.estado == EnCombate {
      UpdateThenGet(rows, id, t.(estado := Resuelta, horaResolucion := Some(t1)));
    }
  }

  /** An accepted update is what a later read of the id returns. */
  lemma ActualizarThenGet(rows: seq<Threat>, id: int, target: ThreatState, now: Time)
    requires ActualizarAmenaza(rows, id, target, now).1.Ok?
    ensures GetById(ActualizarAmenaza(rows, id, target, now).0, id) == Some(ActualizarAmenaza(rows, id, target, now).1.body)
  {
    var t := GetById(rows, id).value;
    var (after, reply) := ActualizarAmenaza(rows, id, target, now);
    if !(target == Resuelta && t.estado == Resuelta) {
      UpdateThenGet(rows, id, reply.body);
    } else {
      assert FirstWithId(rows, id).Some?;
    }
  }

  /** The situation tests/test_threats.py checks: resolving an `activa` threat is refused. */
  lemma ResolveFromActiveRefused(rows: seq<Threat>, id: int, now: Time)
    requires GetById(rows, id).Some? && GetById(rows, id).value.estado == Activa
    ensures ActualizarAmenaza(rows, id, Resuelta, now) == (rows, Fail(Conflict))
    ensures ActualizarAmenaza(rows, id, Resuelta, now).1.StatusCode() == 409
  {
  }

  /** `eliminar_amenaza`: 409 while the threat is `en_combate`; otherwise every
      row with the id is dropped and 200 is answered, also for absent ids. */
  function EliminarAmenaza(rows: seq<Threat>, id: int): (r: (seq<Threat>, Reply<DeleteNote>))
    ensures GetById(rows, id).Some? && GetById(rows, id).value.estado == EnCombate ==> r == (rows, Fail(Conflict))
    ensures !(GetById(rows, id).Some? && GetById(rows, id).value.estado == EnCombate) ==>
              r.1 == Ok(Removed) && GetById(r.0, id).None?
              && forall i :: 0 <= i < |rows| && rows[i].id != id ==> rows[i] in r.0
    ensures r.1.Ok? ==> r.0 == Delete(rows, id).0
  {
    match GetById(rows, id)
    case Some(t) =>
      if t.estado == EnCombate then (rows, Fail(Conflict))
      else (Delete(rows, id).0, Ok(Removed))
    case None => (Delete(rows, id).0, Ok(Removed))
  }
}
