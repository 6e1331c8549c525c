/** The threat generator's configuration: rotation order, base names and
    the per-type range of the ant cost. */
module SchedulerConfig {
  import opened Domain
  import opened Randomness
  import Text

  /** Defaults of the `THREAT_INTERVAL`, `DEFAULT_THREAT_ZONE` and
      `AUTO_START_SCHEDULER` environment variables. */
  const IntervalSeconds: int := 300
  const DefaultZoneId: int := 1
  const AutoStart: bool := true

  /** The rotation order. */
  const ThreatTypes: seq<ThreatType> := [Arana, Abeja, Saltamontes]

  const ThreatNames: map<ThreatType, string> := map[
    Arana := "araña", Abeja := "abeja", Saltamontes := "saltamontes"]

  const ThreatCosts: map<ThreatType, Range> := map[
    Arana := Range(3, 5), Abeja := Range(4, 7), Saltamontes := Range(2, 4)]

  /** Three distinct types, each with a non-empty blank-free name and a cost
      range with `1 <= min <= max`. */
  lemma ThreatTablesComplete()
    ensures |ThreatTypes| == 3
    ensures forall a, b :: 0 <= a < b < |ThreatTypes| ==> ThreatTypes[a] != ThreatTypes[b]
    ensures forall t: ThreatType :: t in ThreatTypes
    ensures forall t: ThreatType :: t in ThreatNames && |ThreatNames[t]| > 0 && Text.NoSpace(ThreatNames[t])
    ensures forall t: ThreatType :: t in ThreatCosts
    ensures PositiveRanges(ThreatCosts)
  {
    forall t: ThreatType
      ensures t in ThreatTypes && t in ThreatCosts
      ensures t in ThreatNames && |ThreatNames[t]| > 0 && Text.NoSpace(ThreatNames[t])
    {
      match t
      case Arana => assert ThreatTypes[0] == t;
      case Abeja => assert ThreatTypes[1] == t;
      case Saltamontes => assert ThreatTypes[2] == t;
    }
  }

  /** `get_threat_cost`: a draw from the type's cost range, (3, 5) for a type
      without one; always positive. */
  function GetThreatCost(t: ThreatType, seed: nat): (c: int)
    ensures t in ThreatCosts ==> ThreatCosts[t].Contains(c)
    ensures t !in ThreatCosts ==> 3 <= c <= 5
    ensures c > 0
  {
    ThreatTablesComplete();
    RandInt(RangeFor(ThreatCosts, t, Range(3, 5)), seed)
  }
}
