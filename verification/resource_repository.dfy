/** The resource file as a sequence of rows in file order, plus the ids this
    repository instance has deleted (which tell "already deleted" apart from
    "never existed"). */
module ResourceRepository {
  import opened Common
  import opened Domain
  import opened SeqStore

  datatype Store = Store(records: seq<Resource>, deletedIds: set<int>)

  /** What `delete` reports. */
  datatype DeleteOutcome = Deleted | AlreadyDeleted | NeverExisted

  function IdOf(r: Resource): int { r.id }

  /** The optional `zona_id` and `estado` filters of `get_all`. */
  predicate Matches(r: Resource, zonaId: Option<int>, estado: Option<string>)
  {
    && (zonaId.None? || r.zonaId == zonaId.value)
    && (estado.None? || ResourceStateCode(r.estado) == estado.value)
  }

  /** `get_all(zona_id, estado)`: exactly the rows passing both filters, in file order. */
  function GetAll(st: Store, zonaId: Option<int>, estado: Option<string>): (r: seq<Resource>)
    ensures zonaId.None? && estado.None? ==> r == st.records
    ensures forall i :: 0 <= i < |r| ==> r[i] in st.records && Matches(r[i], zonaId, estado)
    ensures forall i :: 0 <= i < |st.records| && Matches(st.records[i], zonaId, estado) ==> st.records[i] in r
  {
    var p := (x: Resource) => Matches(x, zonaId, estado);
    if zonaId.None? && estado.None? then
      FilterAll(st.records, p);
      Filter(st.records, p)
    else
      Filter(st.records, p)
  }

  /** The filter keeps file order and duplicates: one more row in the file adds
      that row at the end of the listing exactly when it passes, and an empty
      file lists nothing. */
  lemma GetAllAppend(st: Store, x: Resource, zonaId: Option<int>, estado: Option<string>)
    ensures GetAll(Store([], st.deletedIds), zonaId, estado) == []
    ensures GetAll(st.(records := st.records + [x]), zonaId, estado)
            == GetAll(st, zonaId, estado) + (if Matches(x, zonaId, estado) then [x] else [])
  {
    FilterSnoc(st.records, x, (y: Resource) => Matches(y, zonaId, estado));
  }

  /** `resource_name_exists_in_zone(nombre, zona_id)`. */
  function NameExistsInZone(st: Store, nombre: string, zonaId: int): (b: bool)
    ensures b <==> exists i :: 0 <= i < |st.records| && st.records[i].zonaId == zonaId && st.records[i].nombre == nombre
  {
    var inZone := GetAll(st, Some(zonaId), None);
    var hit := FindFirst(inZone, (x: Resource) => x.nombre == nombre);
    if hit.Some? then
      assert inZone[hit.value] in st.records;
      true
    else
      assert forall i :: 0 <= i < |st.records| && st.records[i].zonaId == zonaId ==> st.records[i] in inZone;
      false
  }

  /** Position of the first row with that id: where `get_by_id`, `update` and
      `delete` stop. */
  function FirstWithId(records: seq<Resource>, id: int): (k: Option<nat>)
    ensures k.Some? ==> (k.value < |records| && records[k.value].id == id
                         && forall j :: 0 <= j < k.value ==> records[j].id != id)
    ensures k.None? ==> forall i :: 0 <= i < |records| ==> records[i].id != id
  {
    FindFirst(records, (x: Resource) => x.id == id)
  }

  /** `get_by_id`: the first row with that id. */
  function GetById(st: Store, id: int): (r: Option<Resource>)
    ensures r.Some? ==> r.value.id == id && r.value in st.records
    ensures r.Some? ==> exists k :: 0 <= k < |st.records| && st.records[k] == r.value
                                  && forall j :: 0 <= j < k ==> st.records[j].id != id
    ensures r.None? <==> forall i :: 0 <= i < |st.records| ==> st.records[i].id != id
  {
    match FirstWithId(st.records, id)
    case None => None
    case Some(k) => Some(st.records[k])
  }

  /** `create`: the record gets `max(ids, default=0) + 1` and is appended;
      the rows already there and the deleted ids are untouched. */
  function Create(st: Store, res: Resource): (r: (Store, Resource))
    ensures r.1 == res.(id := r.1.id)
    ensures forall i :: 0 <= i < |st.records| ==> st.records[i].id < r.1.id
    ensures |st.records| == 0 ==> r.1.id == 1
    ensures r.0.records == st.records + [r.1] && r.0.deletedIds == st.deletedIds
  {
    var created := res.(id := NextId(st.records, IdOf));
    (Store(st.records + [created], st.deletedIds), created)
  }

  /** A created record is found under its new id, and ids stay unique. */
  lemma CreateThenGet(st: Store, res: Resource)
    ensures GetById(Create(st, res).0, Create(st, res).1.id) == Some(Create(st, res).1)
    ensures UniqueKeys(st.records, IdOf) ==> UniqueKeys(Create(st, res).0.records, IdOf)
  {
    var (after, created) := Create(st, res);
    FindFirstAppendFresh(st.records, created, (x: Resource) => x.id == created.id);
    if UniqueKeys(st.records, IdOf) {
      AppendNextIdUnique(st.records, IdOf, created);
    }
  }

  /** `update(resource_id, r)`: the first row with that id is replaced by `r`
      as given (its id is not forced), every other row stays; an absent id
      answers `None` and writes nothing. */
  function Update(st: Store, id: int, upd: Resource): (r: (Store, Option<Resource>))
    ensures r.1.None? <==> FirstWithId(st.records, id).None?
    ensures r.1.None? ==> r.0 == st
    ensures r.1.Some? ==> (r.1.value == upd
                           && r.0 == st.(records := st.records[FirstWithId(st.records, id).value := upd]))
  {
    match FirstWithId(st.records, id)
    case None => (st, None)
    case Some(k) => (st.(records := st.records[k := upd]), Some(upd))
  }

  /** An update touches one row only: every other position keeps its record. */
  lemma UpdateTouchesOneRow(st: Store, id: int, upd: Resource, j: nat)
    requires j < |st.records|
    requires Update(st, id, upd).1.Some?
    ensures |Update(st, id, upd).0.records| == |st.records|
    ensures st.records[j].id != id ==> Update(st, id, upd).0.records[j] == st.records[j]
  {
  }

  /** `delete(resource_id)`: a present id loses its first row and is
      remembered; an absent id reports whether this instance deleted it
      before, and nothing changes. */
  function Delete(st: Store, id: int): (r: (Store, DeleteOutcome))
    ensures (exists i :: 0 <= i < |st.records| && st.records[i].id == id) <==> r.1 == Deleted
    ensures r.1 == Deleted ==> (r.0.deletedIds == st.deletedIds + {id}
                                && r.0.records == RemoveAt(st.records, FirstWithId(st.records, id).value))
    ensures r.1 != Deleted ==> r.0 == st && (r.1 == AlreadyDeleted <==> id in st.deletedIds)
  {
    match FirstWithId(st.records, id)
    case Some(k) => (Store(RemoveAt(st.records, k), st.deletedIds + {id}), Deleted)
    case None => (st, if id in st.deletedIds then AlreadyDeleted else NeverExisted)
  }

  /** With unique ids, deleting the same id twice answers `Deleted` and then
      `AlreadyDeleted`, and the record is gone in between. */
  lemma {:induction false} DeleteTwice(st: Store, id: int)
    requires UniqueKeys(st.records, IdOf)
    requires GetById(st, id).Some?
    ensures Delete(st, id).1 == Deleted
    ensures GetById(Delete(st, id).0, id).None?
    ensures Delete(Delete(st, id).0, id).1 == AlreadyDeleted
  {
    var k := FirstWithId(st.records, id).value;
    var after := Delete(st, id).0;
    forall i | 0 <= i < |after.records| ensures after.records[i].id != id {
      if i < k {
        assert after.records[i] == st.records[i];
      } else {
        assert after.records[i] == st.records[i + 1];
        assert IdOf(st.records[k]) != IdOf(st.records[i + 1]);
      }
    }
  }

  /** Deleting an id that never had a row, and was never deleted, is reported
      as such and changes nothing. */
  lemma DeleteUnknown(st: Store, id: int)
    requires GetById(st, id).None? && id !in st.deletedIds
    ensures Delete(st, id) == (st, NeverExisted)
  {
  }
}
