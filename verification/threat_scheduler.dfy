/** The periodic threat generator: each tick draws the next threat type of
    the rotation, numbers it, draws its ant cost and appends an active threat
    in the default zone to the threat file. */
module ThreatScheduler {
  import opened Common
  import opened Domain
  import opened Text
  import opened SchedulerConfig
  import Rotation
  import ThreatRepository
  import G = Generation

  /** Every stored threat names a type the generator knows: otherwise
      reading the file raises while converting that row, and the scan is
      abandoned. */
  predicate TypesReadable(rows: seq<Threat>)
  {
    forall i :: 0 <= i < |rows| ==> ParseThreatType(rows[i].tipo).Some?
  }

  /** The stored threats as the counter scan sees them. */
  function Sightings(rows: seq<Threat>): (ss: seq<G.Sighting<ThreatType>>)
    ensures |ss| == |rows|
    ensures forall i :: 0 <= i < |rows| ==> ss[i] == G.Sighting(ParseThreatType(rows[i].tipo), rows[i].nombre)
  {
    seq(|rows|, i requires 0 <= i < |rows| => G.Sighting(ParseThreatType(rows[i].tipo), rows[i].nombre))
  }

  lemma SightingsAppend(rows: seq<Threat>, t: Threat)
    ensures Sightings(rows + [t]) == Sightings(rows) + [G.Sighting(ParseThreatType(t.tipo), t.nombre)]
  {
  }

  /** `ThreatScheduler()`: stopped, a random cursor, and the counters rebuilt
      from the stored names (reading the last token). When the file cannot be
      read, or holds a row of an unknown type, every counter stays at 0. */
  function Init(seed: nat, rows: seq<Threat>, readSucceeds: bool): (st: G.State<ThreatType>)
    ensures G.Valid(st, ThreatTypes) && !st.isRunning
    ensures !(readSucceeds && TypesReadable(rows)) ==> forall t :: t in st.counters ==> st.counters[t] == 0
    ensures readSucceeds && TypesReadable(rows) ==>
              G.CountersCover(st.counters, ThreatNames, Sightings(rows), G.LastToken)
    ensures readSucceeds && TypesReadable(rows) ==> forall t :: t in st.counters ==>
              (|| st.counters[t] == 0
               || exists i :: 0 <= i < |rows|
                    && G.Recognised(ThreatNames, Sightings(rows)[i], G.LastToken, t) == Some(st.counters[t] as int))
  {
    var read := if readSucceeds && TypesReadable(rows) then G.ReadOk(Sightings(rows)) else G.ReadFailed;
    G.Init(ThreatTypes, ThreatNames, seed, read, G.LastToken)
  }

  /** What the outside world answers during one tick: whether the default
      zone exists, the cost draw, the clock, and whether the threat file
      accepts the write. */
  datatype Env = Env(defaultZoneExists: bool, costSeed: nat, now: Time, writeSucceeds: bool)

  /** How a tick ends. Every outcome but the first has consumed a type and a
      number. */
  datatype Outcome =
    | NoDefaultZone
    | WriteFailed(tipo: ThreatType)
    | Generated(tipo: ThreatType, record: Threat)

  /** The type a tick consumed, if any. */
  function Kind(o: Outcome): Option<ThreatType>
  {
    match o
    case NoDefaultZone => None
    case WriteFailed(t) => Some(t)
    case Generated(t, _) => Some(t)
  }

  /** `_generate_threat()`. Without the default zone nothing changes. Past
      that check the type and its number are consumed whatever follows; when
      the write succeeds an active threat is appended in the default zone,
      named after its base name and number, with a cost from its range and
      the next free id. */
  function Tick(st: G.State<ThreatType>, rows: seq<Threat>, env: Env)
    : (r: (G.State<ThreatType>, seq<Threat>, Outcome))
    requires G.Valid(st, ThreatTypes)
    ensures G.Valid(r.0, ThreatTypes)
    ensures !env.defaultZoneExists ==> r == (st, rows, NoDefaultZone)
    ensures env.defaultZoneExists ==>
              (&& Kind(r.2) == Some(ThreatTypes[st.currentTypeIndex])
               && r.0 == G.Advance(st, ThreatTypes).0)
    ensures r.2.Generated? <==> env.defaultZoneExists && env.writeSucceeds
    ensures !r.2.Generated? ==> r.1 == rows
    ensures r.2.Generated? ==>
              var rec := r.2.record;
              && rec.tipo == ThreatTypeCode(r.2.tipo)
              && rec.nombre == G.GeneratedName(ThreatNames[r.2.tipo], r.0.counters[r.2.tipo])
              && rec.zonaId == DefaultZoneId
              && ThreatCosts[r.2.tipo].Contains(rec.costoHormigas)
              && rec.estado == Activa && rec.horaDeteccion == env.now && rec.horaResolucion.None?
              && r.1 == rows + [rec]
              && (forall i :: 0 <= i < |rows| ==> rows[i].id < rec.id)
  {
    if !env.defaultZoneExists then
      (st, rows, NoDefaultZone)
    else
      var (next, t, n) := G.Advance(st, ThreatTypes);
      if !env.writeSucceeds then
        (next, rows, WriteFailed(t))
      else
        ThreatTablesComplete();
        var threat := Threat(0, DefaultZoneId, G.GeneratedName(ThreatNames[t], n), ThreatTypeCode(t),
                             GetThreatCost(t, env.costSeed), Activa, env.now, None);
        var (after, created) := ThreatRepository.Create(rows, threat);
        (next, after, Generated(t, created))
  }

  /** Each tick past the default-zone check raises the sum of the counters by
      exactly one, whether or not a threat is stored. */
  lemma TickCountsOne(st: G.State<ThreatType>, rows: seq<Threat>, env: Env)
    requires G.Valid(st, ThreatTypes)
    ensures G.Total(Tick(st, rows, env).0.counters, ThreatTypes)
         == G.Total(st.counters, ThreatTypes) + (if env.defaultZoneExists then 1 else 0)
  {
    if env.defaultZoneExists {
      ThreatTablesComplete();
      G.AdvanceCountsOne(st, ThreatTypes);
    }
  }

  /** A stored threat's type code is read back as its type. */
  lemma CodeReadBack(t: ThreatType)
    ensures ParseThreatType(ThreatTypeCode(t)) == Some(t)
  {
  }

  /** Counters that cover the file keep covering it after a tick, the file
      stays readable, and a stored threat's name is new among the stored
      threats of its type. */
  lemma {:induction false} TickKeepsCover(st: G.State<ThreatType>, rows: seq<Threat>, env: Env)
    requires G.Valid(st, ThreatTypes)
    requires G.CountersCover(st.counters, ThreatNames, Sightings(rows), G.LastToken)
    ensures G.CountersCover(Tick(st, rows, env).0.counters, ThreatNames, Sightings(Tick(st, rows, env).1), G.LastToken)
    ensures TypesReadable(rows) ==> TypesReadable(Tick(st, rows, env).1)
    ensures Tick(st, rows, env).2.Generated? ==>
              forall i :: 0 <= i < |rows| && rows[i].tipo == Tick(st, rows, env).2.record.tipo ==>
                            rows[i].nombre != Tick(st, rows, env).2.record.nombre
  {
    var (next, rows', out) := Tick(st, rows, env);
    var ss := Sightings(rows);
    if env.defaultZoneExists {
      var (_, t, n) := G.Advance(st, ThreatTypes);
      ThreatTablesComplete();
      G.AdvanceKeepsCover(st, ThreatTypes, ThreatNames, ss, G.LastToken);
      var made := G.Sighting(Some(t), G.GeneratedName(ThreatNames[t], n));
      if out.Generated? {
        CodeReadBack(t);
        SightingsAppend(rows, out.record);
        assert Sightings(rows') == ss + [made];
        forall i | 0 <= i < |rows| && rows[i].tipo == out.record.tipo
          ensures rows[i].nombre != out.record.nombre
        {
          assert ss[i].tipo == Some(t);
        }
        if TypesReadable(rows) {
          forall i | 0 <= i < |rows'| ensures ParseThreatType(rows'[i].tipo).Some? {
            if i < |rows| {
              assert rows'[i] == rows[i];
            }
          }
        }
      } else {
        forall u, i | u in next.counters && 0 <= i < |ss| && G.Recognised(ThreatNames, ss[i], G.LastToken, u).Some?
          ensures G.Recognised(ThreatNames, ss[i], G.LastToken, u).value <= next.counters[u]
        {
          assert (ss + [made])[i] == ss[i];
        }
      }
    }
  }

  /** Ticks in sequence. */
  function Run(st: G.State<ThreatType>, rows: seq<Threat>, envs: seq<Env>)
    : (r: (G.State<ThreatType>, seq<Threat>, seq<Outcome>))
    requires G.Valid(st, ThreatTypes)
    ensures G.Valid(r.0, ThreatTypes) && |r.2| == |envs|
    decreases |envs|
  {
    if |envs| == 0 then (st, rows, [])
    else
      var (st1, rows1, o) := Tick(st, rows, envs[0]);
      var (st2, rows2, os) := Run(st1, rows1, envs[1..]);
      (st2, rows2, [o] + os)
  }

  /** The types a run of ticks consumed, all of its ticks having consumed one. */
  function Kinds(outs: seq<Outcome>): (ks: seq<ThreatType>)
    requires forall j :: 0 <= j < |outs| ==> Kind(outs[j]).Some?
    ensures |ks| == |outs|
    ensures forall j :: 0 <= j < |outs| ==> Some(ks[j]) == Kind(outs[j])
  {
    seq(|outs|, j requires 0 <= j < |outs| => Kind(outs[j]).value)
  }

  /** While the default zone exists, successive ticks consume the types in
      rotation order from the cursor. */
  lemma {:induction false} RunFollowsRotation(st: G.State<ThreatType>, rows: seq<Threat>, envs: seq<Env>)
    requires G.Valid(st, ThreatTypes)
    requires forall k :: 0 <= k < |envs| ==> envs[k].defaultZoneExists
    ensures forall j :: 0 <= j < |envs| ==>
              Kind(Run(st, rows, envs).2[j]) == Some(Rotation.Produced(ThreatTypes, st.currentTypeIndex, |envs|)[j])
    ensures Run(st, rows, envs).0.currentTypeIndex == Rotation.IndexAfter(ThreatTypes, st.currentTypeIndex, |envs|)
    decreases |envs|
  {
    if |envs| > 0 {
      var (st1, rows1, o) := Tick(st, rows, envs[0]);
      var rest := envs[1..];
      RunFollowsRotation(st1, rows1, rest);
      var outs := Run(st, rows, envs).2;
      assert outs == [o] + Run(st1, rows1, rest).2;
      assert st1.currentTypeIndex == Rotation.Next(ThreatTypes, st.currentTypeIndex).1;
      var produced := Rotation.Produced(ThreatTypes, st.currentTypeIndex, |envs|);
      assert produced == [ThreatTypes[st.currentTypeIndex]]
                         + Rotation.Produced(ThreatTypes, st1.currentTypeIndex, |envs| - 1);
      forall j | 0 <= j < |envs|
        ensures Kind(outs[j]) == Some(produced[j])
      {
        if j > 0 {
          assert outs[j] == Run(st1, rows1, rest).2[j - 1];
        }
      }
    }
  }

  /** Twice as many ticks as there are types, with the default zone present,
      consume every type exactly twice, wherever the cursor started. */
  lemma TwoRoundsCoverAllTypes(st: G.State<ThreatType>, rows: seq<Threat>, envs: seq<Env>, t: ThreatType)
    requires G.Valid(st, ThreatTypes)
    requires |envs| == 2 * |ThreatTypes|
    requires forall k :: 0 <= k < |envs| ==> envs[k].defaultZoneExists
    ensures forall j :: 0 <= j < |envs| ==> Kind(Run(st, rows, envs).2[j]).Some?
    ensures multiset(Kinds(Run(st, rows, envs).2))[t] == 2
  {
    RunFollowsRotation(st, rows, envs);
    var outs := Run(st, rows, envs).2;
    var produced := Rotation.Produced(ThreatTypes, st.currentTypeIndex, |envs|);
    assert Kinds(outs) == produced;
    ThreatTablesComplete();
    var j :| 0 <= j < |ThreatTypes| && ThreatTypes[j] == t;
    Rotation.RoundsFair(ThreatTypes, st.currentTypeIndex, 2, j);
  }

  /** The reported next type is the one the next tick consumes. */
  lemma StatusPredictsTick(st: G.State<ThreatType>, rows: seq<Threat>, env: Env)
    requires G.Valid(st, ThreatTypes) && env.defaultZoneExists
    ensures Kind(Tick(st, rows, env).2).Some?
    ensures G.GetStatus(st, ThreatTypes, ThreatTypeCode, IntervalSeconds, DefaultZoneId).nextType
         == ThreatTypeCode(Kind(Tick(st, rows, env).2).value)
  {
  }

  /** The counters of an example file holding "araña 5", "abeja 3" and
      "saltamontes 7": 5, 3 and 7. */
  lemma InitExample(seed: nat, t1: Threat, t2: Threat, t3: Threat)
    requires t1.tipo == "ARANA" && t1.nombre == "araña 5"
    requires t2.tipo == "ABEJA" && t2.nombre == "abeja 3"
    requires t3.tipo == "SALTAMONTES" && t3.nombre == "saltamontes 7"
    ensures Init(seed, [t1, t2, t3], true).counters == map[Arana := 5, Abeja := 3, Saltamontes := 7]
  {
    ExampleNames();
    CodeReadBack(Arana);
    CodeReadBack(Abeja);
    CodeReadBack(Saltamontes);
    assert Sightings([t1, t2, t3]) == ExampleSightings();
    InitOfExample(seed, [t1, t2, t3]);
  }

  function ExampleSightings(): seq<G.Sighting<ThreatType>>
  {
    [G.Sighting(Some(Arana), G.GeneratedName(ThreatNames[Arana], 5)),
     G.Sighting(Some(Abeja), G.GeneratedName(ThreatNames[Abeja], 3)),
     G.Sighting(Some(Saltamontes), G.GeneratedName(ThreatNames[Saltamontes], 7))]
  }

  lemma ExampleNames()
    ensures "araña 5" == G.GeneratedName(ThreatNames[Arana], 5)
    ensures "abeja 3" == G.GeneratedName(ThreatNames[Abeja], 3)
    ensures "saltamontes 7" == G.GeneratedName(ThreatNames[Saltamontes], 7)
  {
  }

  lemma InitOfExample(seed: nat, rows: seq<Threat>)
    requires TypesReadable(rows)
    requires Sightings(rows) == ExampleSightings()
    ensures Init(seed, rows, true).counters == map[Arana := 5, Abeja := 3, Saltamontes := 7]
  {
    ExampleScan();
    ExampleCounters();
  }

  lemma ExampleScan()
    ensures G.Scan(G.ZeroCounters(ThreatTypes), ThreatNames, ExampleSightings(), G.LastToken)
         == G.ZeroCounters(ThreatTypes)[Arana := 5][Abeja := 3][Saltamontes := 7]
  {
    ThreatTablesComplete();
    G.ScanThreeGenerated(G.ZeroCounters(ThreatTypes), ThreatNames, Arana, 5, Abeja, 3, Saltamontes, 7, G.LastToken);
  }

  lemma ExampleCounters()
    ensures G.ZeroCounters(ThreatTypes)[Arana := 5][Abeja := 3][Saltamontes := 7]
         == map[Arana := 5, Abeja := 3, Saltamontes := 7]
  {
    assert G.ZeroCounters(ThreatTypes) == map[Arana := 0, Abeja := 0, Saltamontes := 0] by {
      ThreatTablesComplete();
    }
  }

  /** Names without the base name, or without a number, leave the counter at 0. */
  lemma InitInvalidNames(seed: nat, t1: Threat, t2: Threat)
    requires t1.tipo == "ARANA" && t1.nombre == "amenaza_invalida"
    requires t2.tipo == "ARANA" && t2.nombre == "araña"
    ensures Init(seed, [t1, t2], true).counters[Arana] == 0
  {
    assert "amenaza_invalida"[..5][1] == 'm';
    SplitOneToken("araña");
    CodeReadBack(Arana);
    InitOfUnrecognised(seed, [t1, t2]);
  }

  lemma InitOfUnrecognised(seed: nat, rows: seq<Threat>)
    requires |rows| == 2 && ParseThreatType(rows[0].tipo) == Some(Arana) && ParseThreatType(rows[1].tipo) == Some(Arana)
    requires !StartsWith(rows[0].nombre, ThreatNames[Arana])
    requires |Split(rows[1].nombre)| < 2
    ensures Init(seed, rows, true).counters[Arana] == 0
  {
    var ss := Sightings(rows);
    var zero := G.ZeroCounters(ThreatTypes);
    assert TypesReadable(rows);
    assert ss == [ss[0], ss[1]];
    G.ScanOfTwo(zero, ThreatNames, ss[0], ss[1], G.LastToken);
    G.ObserveUnrecognised(zero, ThreatNames, ss[0], G.LastToken);
    G.ObserveUnrecognised(zero, ThreatNames, ss[1], G.LastToken);
  }
}
