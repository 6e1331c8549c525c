/** The threat file as a sequence of rows in file order. */
module ThreatRepository {
  import opened Common
  import opened Domain
  import opened SeqStore

  function IdOf(t: Threat): int { t.id }

  /** The optional `zona_id` and `estado` filters of `get_all`. */
  predicate Matches(t: Threat, zonaId: Option<int>, estado: Option<string>)
  {
    && (zonaId.None? || t.zonaId == zonaId.value)
    && (estado.None? || ThreatStateCode(t.estado) == estado.value)
  }

  /** `get_all(zona_id, estado)`: exactly the rows passing both filters, in file order. */
  function GetAll(rows: seq<Threat>, zonaId: Option<int>, estado: Option<string>): (r: seq<Threat>)
    ensures zonaId.None? && estado.None? ==> r == rows
    ensures forall i :: 0 <= i < |r| ==> r[i] in rows && Matches(r[i], zonaId, estado)
    ensures forall i :: 0 <= i < |rows| && Matches(rows[i], zonaId, estado) ==> rows[i] in r
  {
    var p := (x: Threat) => Matches(x, zonaId, estado);
    if zonaId.None? && estado.None? then
      FilterAll(rows, p);
      Filter(rows, p)
    else
      Filter(rows, p)
  }

  /** The filter keeps file order and duplicates: one more row adds that row
      at the end of the listing exactly when it passes. */
  lemma GetAllAppend(rows: seq<Threat>, x: Threat, zonaId: Option<int>, estado: Option<string>)
    ensures GetAll([], zonaId, estado) == []
    ensures GetAll(rows + [x], zonaId, estado)
            == GetAll(rows, zonaId, estado) + (if Matches(x, zonaId, estado) then [x] else [])
  {
    FilterSnoc(rows, x, (y: Threat) => Matches(y, zonaId, estado));
  }

  /** Position of the first row with that id. */
  function FirstWithId(rows: seq<Threat>, id: int): (k: Option<nat>)
    ensures k.Some? ==> (k.value < |rows| && rows[k.value].id == id
                         && forall j :: 0 <= j < k.value ==> rows[j].id != id)
    ensures k.None? ==> forall i :: 0 <= i < |rows| ==> rows[i].id != id
  {
    FindFirst(rows, (x: Threat) => x.id == id)
  }

  /** `get_by_id`: the first row with that id. */
  function GetById(rows: seq<Threat>, id: int): (r: Option<Threat>)
    ensures r.Some? ==> r.value.id == id && r.value in rows
    ensures r.Some? ==> exists k :: 0 <= k < |rows| && rows[k] == r.value
                                  && forall j :: 0 <= j < k ==> rows[j].id != id
    ensures r.None? <==> forall i :: 0 <= i < |rows| ==> rows[i].id != id
  {
    match FirstWithId(rows, id)
    case None => None
    case Some(k) => Some(rows[k])
  }

  /** `create`: an id of 0 (falsy) is replaced by `max(ids, default=0) + 1`;
      any other id is kept as given. The record is appended. */
  function Create(rows: seq<Threat>, t: Threat): (r: (seq<Threat>, Threat))
    ensures r.1 == t.(id := r.1.id)
    ensures t.id != 0 ==> r.1 == t
    ensures t.id == 0 ==> forall i :: 0 <= i < |rows| ==> rows[i].id < r.1.id
    ensures t.id == 0 && |rows| == 0 ==> r.1.id == 1
    ensures r.0 == rows + [r.1]
  {
    var created := if t.id == 0 then t.(id := NextId(rows, IdOf)) else t;
    (rows + [created], created)
  }

  /** A threat created with id 0 is found under its new id. */
  lemma CreateThenGet(rows: seq<Threat>, t: Threat)
    requires t.id == 0
    ensures GetById(Create(rows, t).0, Create(rows, t).1.id) == Some(Create(rows, t).1)
    ensures UniqueKeys(rows, IdOf) ==> UniqueKeys(Create(rows, t).0, IdOf)
  {
    var (after, created) := Create(rows, t);
    FindFirstAppendFresh(rows, created, (x: Threat) => x.id == created.id);
    if UniqueKeys(rows, IdOf) {
      AppendNextIdUnique(rows, IdOf, created);
    }
  }

  /** `update(threat_id, t)`: the first row with that id becomes `t` with the
      id forced to `threat_id`; an absent id answers `None` and writes nothing. */
  function Update(rows: seq<Threat>, id: int, t: Threat): (r: (seq<Threat>, Option<Threat>))
    ensures r.1.None? <==> FirstWithId(rows, id).None?
    ensures r.1.None? ==> r.0 == rows
    ensures r.1.Some? ==> (r.1.value == t.(id := id)
                           && r.0 == rows[FirstWithId(rows, id).value := t.(id := id)])
  {
    match FirstWithId(rows, id)
    case None => (rows, None)
    case Some(k) => (rows[k := t.(id := id)], Some(t.(id := id)))
  }

  /** After an update the id leads to the rewritten threat. */
  lemma UpdateThenGet(rows: seq<Threat>, id: int, t: Threat)
    requires Update(rows, id, t).1.Some?
    ensures GetById(Update(rows, id, t).0, id) == Some(t.(id := id))
  {
    var k := FirstWithId(rows, id).value;
    var out := Update(rows, id, t).0;
    assert forall j :: 0 <= j < k ==> out[j] == rows[j];
    assert out[k] == t.(id := id);
  }

  /** `delete(threat_id)`: drops every row with that id; `true` exactly when
      the number of rows went down. */
  function Delete(rows: seq<Threat>, id: int): (r: (seq<Threat>, bool))
    ensures r.1 <==> exists i :: 0 <= i < |rows| && rows[i].id == id
    ensures !r.1 ==> r.0 == rows
    ensures forall i :: 0 <= i < |r.0| ==> r.0[i] in rows && r.0[i].id != id
    ensures forall i :: 0 <= i < |rows| && rows[i].id != id ==> rows[i] in r.0
  {
    var p := (x: Threat) => x.id != id;
    var kept := Filter(rows, p);
    FilterLengthIff(rows, p);
    if |kept| < |rows| then (kept, true) else (rows, false)
  }

  /** The rows a delete leaves are the rows of other ids, in file order. */
  lemma DeleteKeepsOthers(rows: seq<Threat>, id: int)
    ensures Delete(rows, id).0 == Filter(rows, (x: Threat) => x.id != id)
  {
    var p := (x: Threat) => x.id != id;
    FilterLengthIff(rows, p);
    if !Delete(rows, id).1 {
      FilterAll(rows, p);
    }
  }

  /** A delete keeps file order and writes each surviving row once: an empty
      file stays empty, and one more row survives, at the end, exactly when
      its id differs. */
  lemma DeleteAppend(rows: seq<Threat>, x: Threat, id: int)
    ensures Delete([], id).0 == []
    ensures Delete(rows + [x], id).0 == Delete(rows, id).0 + (if x.id != id then [x] else [])
  {
    DeleteKeepsOthers(rows, id);
    DeleteKeepsOthers(rows + [x], id);
    FilterSnoc(rows, x, (y: Threat) => y.id != id);
  }
}
