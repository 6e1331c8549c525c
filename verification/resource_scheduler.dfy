/** The periodic resource generator: each tick draws the next resource type
    of the rotation, numbers it, fills its attributes from the configured
    ranges, places it in a random zone and appends it to the resource file. */
module ResourceScheduler {
  import opened Common
  import opened Domain
  import opened Text
  import opened Randomness
  import opened ResourcesSchedulerConfig
  import Rotation
  import ResourceRepository
  import G = Generation

  /** The stored resources as the counter scan sees them. */
  function Sightings(records: seq<Resource>): (ss: seq<G.Sighting<ResourceType>>)
    ensures |ss| == |records|
    ensures forall i :: 0 <= i < |records| ==> ss[i] == G.Sighting(Some(records[i].tipo), records[i].nombre)
  {
    seq(|records|, i requires 0 <= i < |records| => G.Sighting(Some(records[i].tipo), records[i].nombre))
  }

  lemma SightingsAppend(records: seq<Resource>, r: Resource)
    ensures Sightings(records + [r]) == Sightings(records) + [G.Sighting(Some(r.tipo), r.nombre)]
  {
  }

  /** `ResourceScheduler()`: stopped, a random cursor, and the counters
      rebuilt from the stored names (reading the second token); when the file
      cannot be read every counter stays at 0. */
  function Init(seed: nat, store: ResourceRepository.Store, readSucceeds: bool): (st: G.State<ResourceType>)
    ensures G.Valid(st, ResourceTypes) && !st.isRunning
    ensures !readSucceeds ==> forall t :: t in st.counters ==> st.counters[t] == 0
    ensures readSucceeds ==> G.CountersCover(st.counters, ResourceNames, Sightings(store.records), G.SecondToken)
    ensures readSucceeds ==> forall t :: t in st.counters ==>
              (|| st.counters[t] == 0
               || exists i :: 0 <= i < |store.records|
                    && G.Recognised(ResourceNames, Sightings(store.records)[i], G.SecondToken, t) == Some(st.counters[t] as int))
  {
    var read := if readSucceeds then G.ReadOk(Sightings(store.records)) else G.ReadFailed;
    G.Init(ResourceTypes, ResourceNames, seed, read, G.SecondToken)
  }

  /** The random draws one tick consumes. */
  datatype Draws = Draws(quantity: nat, weight: nat, duration: nat, ants: nat, zone: nat)

  /** What the outside world answers during one tick: whether the default
      zone exists, the zone list, the random draws, the clock, and whether
      the resource file accepts the write. */
  datatype Env = Env(defaultZoneExists: bool, zones: seq<Zone>, draws: Draws, now: Time, writeSucceeds: bool)

  /** How a tick ends. Every outcome but the first has consumed a type and a
      number. */
  datatype Outcome =
    | NoDefaultZone
    | NoZones(tipo: ResourceType)
    | WriteFailed(tipo: ResourceType)
    | Generated(record: Resource)

  /** The type a tick consumed, if any. */
  function Kind(o: Outcome): Option<ResourceType>
  {
    match o
    case NoDefaultZone => None
    case NoZones(t) => Some(t)
    case WriteFailed(t) => Some(t)
    case Generated(r) => Some(r.tipo)
  }

  /** The base name, `"recurso"` for a type without one. */
  function BaseName(t: ResourceType): string
  {
    if t in ResourceNames then ResourceNames[t] else "recurso"
  }

  /** The resource a tick builds, before the repository numbers it: the
      generator's own fallbacks apply to a type missing from a range table. */
  function Build(t: ResourceType, n: nat, env: Env): (r: Resource)
    requires |env.zones| > 0
    ensures r.id == 0 && r.tipo == t && r.nombre == G.GeneratedName(BaseName(t), n)
    ensures exists z :: z in env.zones && r.zonaId == z.id
    ensures r.estado == Disponible && r.horaCreacion == env.now && r.horaRecoleccion.None?
  {
    var zone := Choice(env.zones, env.draws.zone);
    Resource(
      0, zone.id, G.GeneratedName(BaseName(t), n), t,
      RandInt(RangeFor(ResourceQuantities, t, Range(1, 1)), env.draws.quantity),
      RandInt(RangeFor(ResourceWeights, t, Range(1, 1)), env.draws.weight),
      RandInt(RangeFor(ResourceCollectionDurations, t, Range(10, 10)), env.draws.duration),
      RandInt(RangeFor(ResourceAntRequirements, t, Range(1, 1)), env.draws.ants),
      Disponible, env.now, None)
  }

  /** `_generate_resource()`. Without the default zone nothing changes. Past
      that check the type and its number are consumed whatever follows; the
      resource is stored only when some zone exists and the write succeeds,
      named after its base name and number, with every attribute inside its
      configured range and the next free id. */
  function Tick(st: G.State<ResourceType>, store: ResourceRepository.Store, env: Env)
    : (r: (G.State<ResourceType>, ResourceRepository.Store, Outcome))
    requires G.Valid(st, ResourceTypes)
    ensures G.Valid(r.0, ResourceTypes)
    ensures !env.defaultZoneExists ==> r == (st, store, NoDefaultZone)
    ensures env.defaultZoneExists ==>
              (&& Kind(r.2) == Some(ResourceTypes[st.currentTypeIndex])
               && r.0 == G.Advance(st, ResourceTypes).0)
    ensures r.2.Generated? <==> env.defaultZoneExists && |env.zones| > 0 && env.writeSucceeds
    ensures !r.2.Generated? ==> r.1 == store
    ensures r.2.Generated? ==>
              var rec := r.2.record;
              && rec.nombre == G.GeneratedName(ResourceNames[rec.tipo], r.0.counters[rec.tipo])
              && (exists z :: z in env.zones && rec.zonaId == z.id)
              && rec.estado == Disponible && rec.horaCreacion == env.now && rec.horaRecoleccion.None?
              && ResourceQuantities[rec.tipo].Contains(rec.cantidadUnitaria)
              && ResourceWeights[rec.tipo].Contains(rec.peso)
              && ResourceCollectionDurations[rec.tipo].Contains(rec.duracionRecoleccion)
              && ResourceAntRequirements[rec.tipo].Contains(rec.hormigasRequeridas)
              && r.1.records == store.records + [rec] && r.1.deletedIds == store.deletedIds
              && (forall i :: 0 <= i < |store.records| ==> store.records[i].id < rec.id)
  {
    if !env.defaultZoneExists then
      (st, store, NoDefaultZone)
    else
      var (next, t, n) := G.Advance(st, ResourceTypes);
      if |env.zones| == 0 then
        (next, store, NoZones(t))
      else if !env.writeSucceeds then
        (next, store, WriteFailed(t))
      else
        NameOf(t);
        RangesOf(t);
        var (after, created) := ResourceRepository.Create(store, Build(t, n, env));
        (next, after, Generated(created))
  }

  /** Each tick past the default-zone check raises the sum of the counters by
      exactly one, whether or not a resource is stored. */
  lemma TickCountsOne(st: G.State<ResourceType>, store: ResourceRepository.Store, env: Env)
    requires G.Valid(st, ResourceTypes)
    ensures G.Total(Tick(st, store, env).0.counters, ResourceTypes)
         == G.Total(st.counters, ResourceTypes) + (if env.defaultZoneExists then 1 else 0)
  {
    if env.defaultZoneExists {
      ResourceTypesWellFormed();
      G.AdvanceCountsOne(st, ResourceTypes);
    }
  }

  /** Counters that cover the file keep covering it after a tick, and a
      stored resource's name is new among the stored resources of its type. */
  lemma {:induction false} TickKeepsCover(st: G.State<ResourceType>, store: ResourceRepository.Store, env: Env)
    requires G.Valid(st, ResourceTypes)
    requires G.CountersCover(st.counters, ResourceNames, Sightings(store.records), G.SecondToken)
    ensures G.CountersCover(Tick(st, store, env).0.counters, ResourceNames,
                            Sightings(Tick(st, store, env).1.records), G.SecondToken)
    ensures Tick(st, store, env).2.Generated? ==>
              forall i :: 0 <= i < |store.records| && store.records[i].tipo == Tick(st, store, env).2.record.tipo ==>
                            store.records[i].nombre != Tick(st, store, env).2.record.nombre
  {
    var (next, store', out) := Tick(st, store, env);
    var ss := Sightings(store.records);
    if env.defaultZoneExists {
      var (_, t, n) := G.Advance(st, ResourceTypes);
      TablesComplete();
      G.AdvanceKeepsCover(st, ResourceTypes, ResourceNames, ss, G.SecondToken);
      var made := G.Sighting(Some(t), G.GeneratedName(ResourceNames[t], n));
      if out.Generated? {
        SightingsAppend(store.records, out.record);
        assert Sightings(store'.records) == ss + [made];
        forall i | 0 <= i < |store.records| && store.records[i].tipo == t
          ensures store.records[i].nombre != out.record.nombre
        {
          assert ss[i].tipo == Some(t);
        }
      } else {
        forall u, i | u in next.counters && 0 <= i < |ss| && G.Recognised(ResourceNames, ss[i], G.SecondToken, u).Some?
          ensures G.Recognised(ResourceNames, ss[i], G.SecondToken, u).value <= next.counters[u]
        {
          assert (ss + [made])[i] == ss[i];
        }
      }
    }
  }

  /** Ticks in sequence. */
  function Run(st: G.State<ResourceType>, store: ResourceRepository.Store, envs: seq<Env>)
    : (r: (G.State<ResourceType>, ResourceRepository.Store, seq<Outcome>))
    requires G.Valid(st, ResourceTypes)
    ensures G.Valid(r.0, ResourceTypes) && |r.2| == |envs|
    decreases |envs|
  {
    if |envs| == 0 then (st, store, [])
    else
      var (st1, store1, o) := Tick(st, store, envs[0]);
      var (st2, store2, os) := Run(st1, store1, envs[1..]);
      (st2, store2, [o] + os)
  }

  /** While the default zone exists, successive ticks consume the types in
      rotation order from the cursor. */
  lemma {:induction false} RunFollowsRotation(st: G.State<ResourceType>, store: ResourceRepository.Store, envs: seq<Env>)
    requires G.Valid(st, ResourceTypes)
    requires forall k :: 0 <= k < |envs| ==> envs[k].defaultZoneExists
    ensures forall j :: 0 <= j < |envs| ==>
              Kind(Run(st, store, envs).2[j]) == Some(Rotation.Produced(ResourceTypes, st.currentTypeIndex, |envs|)[j])
    ensures Run(st, store, envs).0.currentTypeIndex == Rotation.IndexAfter(ResourceTypes, st.currentTypeIndex, |envs|)
    decreases |envs|
  {
    if |envs| > 0 {
      var (st1, store1, o) := Tick(st, store, envs[0]);
      var rest := envs[1..];
      RunFollowsRotation(st1, store1, rest);
      var outs := Run(st, store, envs).2;
      assert outs == [o] + Run(st1, store1, rest).2;
      assert st1.currentTypeIndex == Rotation.Next(ResourceTypes, st.currentTypeIndex).1;
      var produced := Rotation.Produced(ResourceTypes, st.currentTypeIndex, |envs|);
      assert produced == [ResourceTypes[st.currentTypeIndex]]
                         + Rotation.Produced(ResourceTypes, st1.currentTypeIndex, |envs| - 1);
      forall j | 0 <= j < |envs|
        ensures Kind(outs[j]) == Some(produced[j])
      {
        if j > 0 {
          assert outs[j] == Run(st1, store1, rest).2[j - 1];
        }
      }
    }
  }

  /** The reported next type is the one the next tick consumes. */
  lemma StatusPredictsTick(st: G.State<ResourceType>, store: ResourceRepository.Store, env: Env)
    requires G.Valid(st, ResourceTypes) && env.defaultZoneExists
    ensures Kind(Tick(st, store, env).2).Some?
    ensures G.GetStatus(st, ResourceTypes, ResourceTypeCode, IntervalSeconds, DefaultZoneId).nextType
         == ResourceTypeCode(Kind(Tick(st, store, env).2).value)
  {
  }

  /** The counters of an example file holding "hoja 5", "semilla 3" and
      "flor 7": 5, 3 and 7 for those types, 0 for the others. */
  lemma InitExample(seed: nat, r1: Resource, r2: Resource, r3: Resource)
    requires r1.tipo == Hoja && r1.nombre == "hoja 5"
    requires r2.tipo == Semilla && r2.nombre == "semilla 3"
    requires r3.tipo == Flor && r3.nombre == "flor 7"
    ensures Init(seed, ResourceRepository.Store([r1, r2, r3], {}), true).counters
         == map[Hoja := 5, Semilla := 3, Flor := 7, Fruto := 0, Nectar := 0, Hongo := 0, Agua := 0]
  {
    ExampleNames();
    assert Sightings([r1, r2, r3]) == ExampleSightings();
    InitOfExample(seed, ResourceRepository.Store([r1, r2, r3], {}));
  }

  lemma InitOfExample(seed: nat, store: ResourceRepository.Store)
    requires Sightings(store.records) == ExampleSightings()
    ensures Init(seed, store, true).counters
         == map[Hoja := 5, Semilla := 3, Flor := 7, Fruto := 0, Nectar := 0, Hongo := 0, Agua := 0]
  {
    ExampleScan();
    ExampleCounters();
  }

  function ExampleSightings(): seq<G.Sighting<ResourceType>>
  {
    [G.Sighting(Some(Hoja), G.GeneratedName(ResourceNames[Hoja], 5)),
     G.Sighting(Some(Semilla), G.GeneratedName(ResourceNames[Semilla], 3)),
     G.Sighting(Some(Flor), G.GeneratedName(ResourceNames[Flor], 7))]
  }

  lemma ExampleNames()
    ensures "hoja 5" == G.GeneratedName(ResourceNames[Hoja], 5)
    ensures "semilla 3" == G.GeneratedName(ResourceNames[Semilla], 3)
    ensures "flor 7" == G.GeneratedName(ResourceNames[Flor], 7)
  {
  }

  lemma ExampleScan()
    ensures G.Scan(G.ZeroCounters(ResourceTypes), ResourceNames, ExampleSightings(), G.SecondToken)
         == G.ZeroCounters(ResourceTypes)[Hoja := 5][Semilla := 3][Flor := 7]
  {
    ResourceTypesWellFormed();
    NameOf(Hoja);
    NameOf(Semilla);
    NameOf(Flor);
    G.ScanThreeGenerated(G.ZeroCounters(ResourceTypes), ResourceNames, Hoja, 5, Semilla, 3, Flor, 7, G.SecondToken);
  }

  lemma ExampleCounters()
    ensures G.ZeroCounters(ResourceTypes)[Hoja := 5][Semilla := 3][Flor := 7]
         == map[Hoja := 5, Semilla := 3, Flor := 7, Fruto := 0, Nectar := 0, Hongo := 0, Agua := 0]
  {
    assert G.ZeroCounters(ResourceTypes)
        == map[Hoja := 0, Semilla := 0, Flor := 0, Fruto := 0, Nectar := 0, Hongo := 0, Agua := 0] by {
      ResourceTypesWellFormed();
    }
  }

  /** Names without the base name, or without a number, leave the counter at 0. */
  lemma InitInvalidNames(seed: nat, r1: Resource, r2: Resource)
    requires r1.tipo == Hoja && r1.nombre == "recurso_invalido"
    requires r2.tipo == Hoja && r2.nombre == "hoja"
    ensures Init(seed, ResourceRepository.Store([r1, r2], {}), true).counters[Hoja] == 0
  {
    assert "recurso_invalido"[..4][0] == 'r';
    SplitOneToken("hoja");
    InitOfUnrecognised(seed, ResourceRepository.Store([r1, r2], {}));
  }

  lemma InitOfUnrecognised(seed: nat, store: ResourceRepository.Store)
    requires |store.records| == 2 && store.records[0].tipo == Hoja && store.records[1].tipo == Hoja
    requires !StartsWith(store.records[0].nombre, ResourceNames[Hoja])
    requires |Split(store.records[1].nombre)| < 2
    ensures Init(seed, store, true).counters[Hoja] == 0
  {
    var ss := Sightings(store.records);
    var zero := G.ZeroCounters(ResourceTypes);
    assert ss == [ss[0], ss[1]];
    G.ScanOfTwo(zero, ResourceNames, ss[0], ss[1], G.SecondToken);
    G.ObserveUnrecognised(zero, ResourceNames, ss[0], G.SecondToken);
    G.ObserveUnrecognised(zero, ResourceNames, ss[1], G.SecondToken);
  }
}
