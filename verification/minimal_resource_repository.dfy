/** The in-memory resource repository: a dictionary from id to resource, the
    next id to hand out, and the ids deleted so far. */
module MinimalResourceRepository {
  import opened Common
  import opened Domain
  import opened SeqStore
  import ResourceRepository

  datatype Store = Store(resources: map<int, Resource>, nextId: int, deleted: set<int>)

  /** The repository as constructed. */
  const Empty: Store := Store(map[], 1, {})

  /** What every reachable store satisfies: each record sits under its own
      id, and every id used so far (live or deleted) is below `nextId`. */
  ghost predicate Valid(st: Store)
  {
    && st.nextId >= 1
    && (forall k :: k in st.resources ==> 1 <= k < st.nextId && st.resources[k].id == k)
    && (forall d :: d in st.deleted ==> 1 <= d < st.nextId)
  }

  lemma EmptyValid()
    ensures Valid(Empty)
  {
  }

  /** `zone_exists`: every id below 9999 counts as an existing zone. */
  predicate ZoneExists(zoneId: int)
  {
    zoneId < 9999
  }

  /** The stand-in zone check is a threshold: 9998 exists, 9999 does not, and
      every id below an existing one exists too (0 and negative ids included). */
  lemma ZoneExistsThreshold(z: int, w: int)
    ensures ZoneExists(9998) && !ZoneExists(9999)
    ensures ZoneExists(z) && w <= z ==> ZoneExists(w)
  {
  }

  /** `create`: the record takes `next_id`, the creation time and the
      `disponible` state, whatever it carried; `next_id` moves on by one. */
  function Create(st: Store, res: Resource, now: Time): (r: (Store, Resource))
    ensures r.1 == res.(id := st.nextId, horaCreacion := now, estado := Disponible)
    ensures r.0.resources == st.resources[st.nextId := r.1]
    ensures r.0.nextId == st.nextId + 1 && r.0.deleted == st.deleted
    ensures Valid(st) ==> Valid(r.0)
  {
    var created := res.(id := st.nextId, horaCreacion := now, estado := Disponible);
    (Store(st.resources[st.nextId := created], st.nextId + 1, st.deleted), created)
  }

  /** Ids are never reused: a created record's id was neither live nor
      deleted before. */
  lemma CreateFreshId(st: Store, res: Resource, now: Time)
    requires Valid(st)
    ensures Create(st, res, now).1.id !in st.resources
    ensures Create(st, res, now).1.id !in st.deleted
    ensures forall k :: k in st.resources ==> k < Create(st, res, now).1.id
  {
  }

  /** `list(resources.values())`: ids are only ever inserted in increasing
      order, so the dictionary yields its records by ascending id. */
  function Listing(st: Store): (r: seq<Resource>)
    ensures forall i :: 0 <= i < |r| ==> r[i] in st.resources.Values
    ensures Valid(st) ==> forall i, j :: 0 <= i < j < |r| ==> r[i].id < r[j].id
    ensures Valid(st) ==> forall k :: k in st.resources ==> st.resources[k] in r
  {
    var ks := KeysBetween(st.resources, 1, st.nextId);
    var r := seq(|ks|, i requires 0 <= i < |ks| => st.resources[ks[i]]);
    assert forall k :: k in st.resources && 1 <= k < st.nextId ==> st.resources[k] in r by {
      forall k | k in st.resources && 1 <= k < st.nextId ensures st.resources[k] in r {
        var i :| 0 <= i < |ks| && ks[i] == k;
        assert r[i] == st.resources[k];
      }
    }
    r
  }

  /** `get_all(zona_id, estado)`: the listed records passing both filters, by
      ascending id and each once. */
  function GetAll(st: Store, zonaId: Option<int>, estado: Option<string>): (r: seq<Resource>)
    ensures forall i :: 0 <= i < |r| ==> r[i] in st.resources.Values && ResourceRepository.Matches(r[i], zonaId, estado)
    ensures Valid(st) ==> forall k :: k in st.resources && ResourceRepository.Matches(st.resources[k], zonaId, estado)
                                      ==> st.resources[k] in r
    ensures Valid(st) ==> forall i, j :: 0 <= i < j < |r| ==> r[i].id < r[j].id
  {
    var p := (x: Resource) => ResourceRepository.Matches(x, zonaId, estado);
    FilterListing(st, p);
    Filter(Listing(st), p)
  }

  /** Filtering the listing keeps only stored records that pass, every
      passing record, and the ascending order of ids. */
  lemma FilterListing(st: Store, p: Resource -> bool)
    ensures forall i :: 0 <= i < |Filter(Listing(st), p)| ==>
              Filter(Listing(st), p)[i] in st.resources.Values && p(Filter(Listing(st), p)[i])
    ensures Valid(st) ==> forall k :: k in st.resources && p(st.resources[k]) ==> st.resources[k] in Filter(Listing(st), p)
    ensures Valid(st) ==> forall i, j :: 0 <= i < j < |Filter(Listing(st), p)| ==>
              Filter(Listing(st), p)[i].id < Filter(Listing(st), p)[j].id
  {
    var all := Listing(st);
    assert forall i :: 0 <= i < |Filter(all, p)| ==> Filter(all, p)[i] in all;
    if Valid(st) {
      FilterKeepsIncreasing(all, p, ResourceRepository.IdOf);
    }
  }

  /** `get_by_id`. */
  function GetById(st: Store, id: int): (r: Option<Resource>)
    ensures r.Some? <==> id in st.resources
    ensures r.Some? ==> r.value == st.resources[id]
  {
    if id in st.resources then Some(st.resources[id]) else None
  }

  /** The collection time an update leaves: stamped with `now` on entry into
      `recolectado`, otherwise the stored one. */
  function CollectionStamp(stored: Resource, newState: ResourceState, now: Time): Option<Time>
  {
    if newState == Recolectado && stored.estado != Recolectado then Some(now) else stored.horaRecoleccion
  }

  /** `update(resource_id, r)`: a present id gets `r` with the id forced, the
      original creation time kept and the collection time stamped only on
      entry into `recolectado`; an absent id answers `None`. */
  function Update(st: Store, id: int, res: Resource, now: Time): (r: (Store, Option<Resource>))
    ensures r.1.None? <==> id !in st.resources
    ensures r.1.None? ==> r.0 == st
    ensures r.1.Some? ==> r.0 == st.(resources := st.resources[id := r.1.value])
    ensures r.1.Some? ==>
              && r.1.value == res.(id := id, horaCreacion := r.1.value.horaCreacion, horaRecoleccion := r.1.value.horaRecoleccion)
              && r.1.value.horaCreacion == st.resources[id].horaCreacion
              && (res.estado == Recolectado && st.resources[id].estado != Recolectado ==> r.1.value.horaRecoleccion == Some(now))
              && (!(res.estado == Recolectado && st.resources[id].estado != Recolectado) ==>
                    r.1.value.horaRecoleccion == st.resources[id].horaRecoleccion)
    ensures Valid(st) ==> Valid(r.0)
  {
    if id in st.resources then
      var stored := st.resources[id];
      var written := res.(id := id, horaCreacion := stored.horaCreacion,
                          horaRecoleccion := CollectionStamp(stored, res.estado, now));
      (st.(resources := st.resources[id := written]), Some(written))
    else
      (st, None)
  }

  /** The collection time is stamped once: a second update to `recolectado`,
      at any later time, keeps the first stamp. */
  lemma CollectedStampedOnce(st: Store, id: int, res1: Resource, res2: Resource, t1: Time, t2: Time)
    requires id in st.resources && st.resources[id].estado != Recolectado
    requires res1.estado == Recolectado && res2.estado == Recolectado
    ensures Update(st, id, res1, t1).1.Some?
    ensures Update(Update(st, id, res1, t1).0, id, res2, t2).1.value.horaRecoleccion == Some(t1)
  {
  }

  /** `delete(resource_id)`: a present id is removed and remembered (`True`);
      an id deleted before answers `False`; an id never seen answers `True`. */
  function Delete(st: Store, id: int): (r: (Store, bool))
    ensures id in st.resources ==> r.1 && r.0 == st.(resources := st.resources - {id}, deleted := st.deleted + {id})
    ensures id !in st.resources ==> r.0 == st && (r.1 <==> id !in st.deleted)
    ensures Valid(st) ==> Valid(r.0)
    ensures id !in r.0.resources
  {
    if id in st.resources then
      (st.(resources := st.resources - {id}, deleted := st.deleted + {id}), true)
    else
      (st, id !in st.deleted)
  }

  /** Deleting a present record twice answers `True`, then `False`. */
  lemma DeleteTwice(st: Store, id: int)
    requires id in st.resources
    ensures Delete(st, id).1
    ensures !Delete(Delete(st, id).0, id).1
  {
  }

  /** `resource_name_exists_in_zone(nombre, zona_id)`. */
  function NameExistsInZone(st: Store, nombre: string, zonaId: int): (b: bool)
    ensures b ==> exists k :: k in st.resources && st.resources[k].zonaId == zonaId && st.resources[k].nombre == nombre
    ensures Valid(st) && (exists k :: k in st.resources && st.resources[k].zonaId == zonaId && st.resources[k].nombre == nombre) ==> b
  {
    var all := Listing(st);
    var hit := FindFirst(all, (x: Resource) => x.zonaId == zonaId && x.nombre == nombre);
    if hit.Some? then
      var x := all[hit.value];
      assert x in st.resources.Values;
      var k :| k in st.resources && st.resources[k] == x;
      true
    else
      false
  }
}
