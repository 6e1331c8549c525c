/** The in-memory threat repository: a dictionary from id to threat and the
    next id to hand out. */
module MinimalThreatRepository {
  import opened Common
  import opened Domain
  import opened SeqStore
  import ThreatRepository

  datatype Store = Store(threats: map<int, Threat>, nextId: int)

  /** The repository as constructed. */
  const Empty: Store := Store(map[], 1)

  /** Each threat sits under its own id, and every id is below `nextId`. */
  ghost predicate Valid(st: Store)
  {
    && st.nextId >= 1
    && (forall k :: k in st.threats ==> 1 <= k < st.nextId && st.threats[k].id == k)
  }

  lemma EmptyValid()
    ensures Valid(Empty)
  {
  }

  /** `create`: the threat takes `next_id`, the detection time and the
      `activa` state, whatever it carried; `next_id` moves on by one. */
  function Create(st: Store, t: Threat, now: Time): (r: (Store, Threat))
    ensures r.1 == t.(id := st.nextId, horaDeteccion := now, estado := Activa)
    ensures r.0 == Store(st.threats[st.nextId := r.1], st.nextId + 1)
    ensures Valid(st) ==> Valid(r.0) && r.1.id !in st.threats
  {
    var created := t.(id := st.nextId, horaDeteccion := now, estado := Activa);
    (Store(st.threats[st.nextId := created], st.nextId + 1), created)
  }

  /** `list(threats.values())`, by ascending id. */
  function Listing(st: Store): (r: seq<Threat>)
    ensures forall i :: 0 <= i < |r| ==> r[i] in st.threats.Values
    ensures Valid(st) ==> forall i, j :: 0 <= i < j < |r| ==> r[i].id < r[j].id
    ensures Valid(st) ==> forall k :: k in st.threats ==> st.threats[k] in r
  {
    var ks := KeysBetween(st.threats, 1, st.nextId);
    var r := seq(|ks|, i requires 0 <= i < |ks| => st.threats[ks[i]]);
    assert forall k :: k in st.threats && 1 <= k < st.nextId ==> st.threats[k] in r by {
      forall k | k in st.threats && 1 <= k < st.nextId ensures st.threats[k] in r {
        var i :| 0 <= i < |ks| && ks[i] == k;
        assert r[i] == st.threats[k];
      }
    }
    r
  }

  /** `get_all(zona_id, estado)`: the listed threats passing both filters, by
      ascending id and each once. */
  function GetAll(st: Store, zonaId: Option<int>, estado: Option<string>): (r: seq<Threat>)
    ensures forall i :: 0 <= i < |r| ==> r[i] in st.threats.Values && ThreatRepository.Matches(r[i], zonaId, estado)
    ensures Valid(st) ==> forall k :: k in st.threats && ThreatRepository.Matches(st.threats[k], zonaId, estado)
                                      ==> st.threats[k] in r
    ensures Valid(st) ==> forall i, j :: 0 <= i < j < |r| ==> r[i].id < r[j].id
  {
    var p := (x: Threat) => ThreatRepository.Matches(x, zonaId, estado);
    FilterListing(st, p);
    Filter(Listing(st), p)
  }

  /** Filtering the listing keeps only stored records that pass, every
      passing record, and the ascending order of ids. */
  lemma FilterListing(st: Store, p: Threat -> bool)
    ensures forall i :: 0 <= i < |Filter(Listing(st), p)| ==>
              Filter(Listing(st), p)[i] in st.threats.Values && p(Filter(Listing(st), p)[i])
    ensures Valid(st) ==> forall k :: k in st.threats && p(st.threats[k]) ==> st.threats[k] in Filter(Listing(st), p)
    ensures Valid(st) ==> forall i, j :: 0 <= i < j < |Filter(Listing(st), p)| ==>
              Filter(Listing(st), p)[i].id < Filter(Listing(st), p)[j].id
  {
    var all := Listing(st);
    assert forall i :: 0 <= i < |Filter(all, p)| ==> Filter(all, p)[i] in all;
    if Valid(st) {
      FilterKeepsIncreasing(all, p, ThreatRepository.IdOf);
    }
  }

  /** `update(threat_id, t)`: a present id gets `t` with the id forced; an
      absent id answers `None` and nothing is written. */
  function Update(st: Store, id: int, t: Threat): (r: (Store, Option<Threat>))
    ensures r.1.None? <==> id !in st.threats
    ensures r.1.None? ==> r.0 == st
    ensures r.1.Some? ==> r.1.value == t.(id := id) && r.0 == st.(threats := st.threats[id := t.(id := id)])
    ensures Valid(st) ==> Valid(r.0)
  {
    if id in st.threats then
      (st.(threats := st.threats[id := t.(id := id)]), Some(t.(id := id)))
    else
      (st, None)
  }

  /** `delete(threat_id)`: always `True`; afterwards the id is absent and
      every other threat is untouched. */
  function Delete(st: Store, id: int): (r: (Store, bool))
    ensures r.1
    ensures id !in r.0.threats
    ensures forall k :: k in st.threats && k != id ==> k in r.0.threats && r.0.threats[k] == st.threats[k]
    ensures r.0.threats.Keys <= st.threats.Keys && r.0.nextId == st.nextId
    ensures Valid(st) ==> Valid(r.0)
  {
    if id in st.threats then (st.(threats := st.threats - {id}), true) else (st, true)
  }
}
