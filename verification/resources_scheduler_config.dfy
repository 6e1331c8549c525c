/** The resource generator's configuration: the rotation order, the base
    names, and the per-type ranges of the generated attributes. */
module ResourcesSchedulerConfig {
  import opened Domain
  import opened Randomness
  import Text

  /** Defaults of the `RESOURCES_INTERVAL`, `DEFAULT_RESOURCE_ZONE` and
      `AUTO_START_RESOURCES_SCHEDULER` environment variables. */
  const IntervalSeconds: int := 240
  const DefaultZoneId: int := 1
  const AutoStart: bool := true

  /** The rotation order. */
  const ResourceTypes: seq<ResourceType> := [Hoja, Semilla, Flor, Fruto, Nectar, Hongo, Agua]

  const ResourceNames: map<ResourceType, string> := map[
    Hoja := "hoja", Semilla := "semilla", Flor := "flor", Fruto := "fruto",
    Nectar := "nectar", Hongo := "hongo", Agua := "agua"]

  const ResourceQuantities: map<ResourceType, Range> := map[
    Hoja := Range(10, 20), Semilla := Range(5, 15), Flor := Range(8, 18), Fruto := Range(6, 12),
    Nectar := Range(15, 25), Hongo := Range(4, 10), Agua := Range(20, 30)]

  const ResourceWeights: map<ResourceType, Range> := map[
    Hoja := Range(1, 3), Semilla := Range(2, 4), Flor := Range(3, 6), Fruto := Range(5, 8),
    Nectar := Range(1, 2), Hongo := Range(4, 7), Agua := Range(10, 15)]

  const ResourceCollectionDurations: map<ResourceType, Range> := map[
    Hoja := Range(30, 60), Semilla := Range(45, 90), Flor := Range(60, 120), Fruto := Range(75, 150),
    Nectar := Range(20, 40), Hongo := Range(50, 100), Agua := Range(15, 30)]

  const ResourceAntRequirements: map<ResourceType, Range> := map[
    Hoja := Range(2, 4), Semilla := Range(3, 5), Flor := Range(4, 6), Fruto := Range(5, 7),
    Nectar := Range(1, 3), Hongo := Range(3, 5), Agua := Range(1, 2)]

  /** The rotation lists seven distinct types, and every resource type is in it. */
  lemma ResourceTypesWellFormed()
    ensures |ResourceTypes| == 7
    ensures forall a, b :: 0 <= a < b < |ResourceTypes| ==> ResourceTypes[a] != ResourceTypes[b]
    ensures forall t: ResourceType :: t in ResourceTypes
  {
    forall t: ResourceType ensures t in ResourceTypes {
      match t
      case Hoja => assert ResourceTypes[0] == t;
      case Semilla => assert ResourceTypes[1] == t;
      case Flor => assert ResourceTypes[2] == t;
      case Fruto => assert ResourceTypes[3] == t;
      case Nectar => assert ResourceTypes[4] == t;
      case Hongo => assert ResourceTypes[5] == t;
      case Agua => assert ResourceTypes[6] == t;
    }
  }

  /** Every type has a non-empty, blank-free base name and an entry in all
      four range tables, each range satisfying `1 <= min <= max`. */
  lemma TablesComplete()
    ensures forall t: ResourceType :: t in ResourceNames && |ResourceNames[t]| > 0 && Text.NoSpace(ResourceNames[t])
    ensures forall t: ResourceType :: t in ResourceQuantities && t in ResourceWeights
                                   && t in ResourceCollectionDurations && t in ResourceAntRequirements
    ensures PositiveRanges(ResourceQuantities) && PositiveRanges(ResourceWeights)
    ensures PositiveRanges(ResourceCollectionDurations) && PositiveRanges(ResourceAntRequirements)
  {
    forall t: ResourceType
      ensures t in ResourceNames && |ResourceNames[t]| > 0 && Text.NoSpace(ResourceNames[t])
    {
      NameOf(t);
    }
    forall t: ResourceType
      ensures t in ResourceQuantities && t in ResourceWeights
      ensures t in ResourceCollectionDurations && t in ResourceAntRequirements
    {
      RangesOf(t);
    }
    RangesPositive();
  }

  lemma RangesPositive()
    ensures PositiveRanges(ResourceQuantities) && PositiveRanges(ResourceWeights)
    ensures PositiveRanges(ResourceCollectionDurations) && PositiveRanges(ResourceAntRequirements)
  {
    forall k | k in ResourceQuantities ensures 1 <= ResourceQuantities[k].lo <= ResourceQuantities[k].hi {
      match k
      case Hoja =>
      case Semilla =>
      case Flor =>
      case Fruto =>
      case Nectar =>
      case Hongo =>
      case Agua =>
    }
    forall k | k in ResourceWeights ensures 1 <= ResourceWeights[k].lo <= ResourceWeights[k].hi {
      match k
      case Hoja =>
      case Semilla =>
      case Flor =>
      case Fruto =>
      case Nectar =>
      case Hongo =>
      case Agua =>
    }
    forall k | k in ResourceCollectionDurations ensures 1 <= ResourceCollectionDurations[k].lo <= ResourceCollectionDurations[k].hi {
      match k
      case Hoja =>
      case Semilla =>
      case Flor =>
      case Fruto =>
      case Nectar =>
      case Hongo =>
      case Agua =>
    }
    forall k | k in ResourceAntRequirements ensures 1 <= ResourceAntRequirements[k].lo <= ResourceAntRequirements[k].hi {
      match k
      case Hoja =>
      case Semilla =>
      case Flor =>
      case Fruto =>
      case Nectar =>
      case Hongo =>
      case Agua =>
    }
  }

  lemma NameOf(t: ResourceType)
    ensures t in ResourceNames && |ResourceNames[t]| > 0 && Text.NoSpace(ResourceNames[t])
  {
    match t
    case Hoja =>
    case Semilla =>
    case Flor =>
    case Fruto =>
    case Nectar =>
    case Hongo =>
    case Agua =>
  }

  lemma RangesOf(t: ResourceType)
    ensures t in ResourceQuantities && t in ResourceWeights
    ensures t in ResourceCollectionDurations && t in ResourceAntRequirements
  {
    match t
    case Hoja =>
    case Semilla =>
    case Flor =>
    case Fruto =>
    case Nectar =>
    case Hongo =>
    case Agua =>
  }

  /** `get_resource_quantity`: a draw from the type's range, (5, 10) for a type without one. */
  function GetResourceQuantity(t: ResourceType, seed: nat): (q: int)
    ensures t in ResourceQuantities ==> ResourceQuantities[t].Contains(q)
    ensures t !in ResourceQuantities ==> 5 <= q <= 10
  {
    TablesComplete();
    RandInt(RangeFor(ResourceQuantities, t, Range(5, 10)), seed)
  }

  /** `get_resource_weight`: fallback (1, 3). */
  function GetResourceWeight(t: ResourceType, seed: nat): (w: int)
    ensures t in ResourceWeights ==> ResourceWeights[t].Contains(w)
    ensures t !in ResourceWeights ==> 1 <= w <= 3
  {
    TablesComplete();
    RandInt(RangeFor(ResourceWeights, t, Range(1, 3)), seed)
  }

  /** `get_collection_duration`: fallback (30, 60). */
  function GetCollectionDuration(t: ResourceType, seed: nat): (d: int)
    ensures t in ResourceCollectionDurations ==> ResourceCollectionDurations[t].Contains(d)
    ensures t !in ResourceCollectionDurations ==> 30 <= d <= 60
  {
    TablesComplete();
    RandInt(RangeFor(ResourceCollectionDurations, t, Range(30, 60)), seed)
  }

  /** `get_ant_requirement`: fallback (2, 4). */
  function GetAntRequirement(t: ResourceType, seed: nat): (a: int)
    ensures t in ResourceAntRequirements ==> ResourceAntRequirements[t].Contains(a)
    ensures t !in ResourceAntRequirements ==> 2 <= a <= 4
  {
    TablesComplete();
    RandInt(RangeFor(ResourceAntRequirements, t, Range(2, 4)), seed)
  }

  /** Every helper draws a positive value, whatever the type and the draw. */
  lemma HelpersPositive(t: ResourceType, seed: nat)
    ensures GetResourceQuantity(t, seed) >= 1 && GetResourceWeight(t, seed) >= 1
    ensures GetCollectionDuration(t, seed) >= 1 && GetAntRequirement(t, seed) >= 1
  {
    TablesComplete();
  }
}
