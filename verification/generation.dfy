/** What the resource and the threat generators share: the running flag, the
    round-robin cursor and one counter per subtype; rebuilding the counters
    from the names already stored ("hoja 5" -> 5); handing out the next
    subtype and number; starting, stopping and reporting. */
module Generation {
  import opened Common
  import opened Text
  import opened Randomness
  import Rotation

  /** The mutable fields of a generator: `is_running`, `current_type_index`
      and the per-subtype counters. */
  datatype State<T> = State(isRunning: bool, currentTypeIndex: nat, counters: map<T, nat>)

  /** The cursor points into the rotation list and the counters are keyed by
      exactly the listed subtypes. */
  ghost predicate Valid<T(!new)>(st: State<T>, types: seq<T>)
  {
    && |types| > 0
    && st.currentTypeIndex < |types|
    && (forall t :: t in st.counters <==> t in types)
  }

  /** `{tipo: 0 for tipo in TYPES}`. */
  function ZeroCounters<T(!new)>(types: seq<T>): (c: map<T, nat>)
    ensures forall t :: t in c <==> t in types
    ensures forall t :: t in c ==> c[t] == 0
  {
    map t | t in types :: 0
  }

  // ---------------------------------------------------------------------------
  // Reading numbers back out of stored names

  /** Which token `_initialize_counters` converts with `int()` once the last
      token has passed `isdigit()`: the resource generator reads the second
      token, the threat generator the last one. */
  datatype NumberToken = SecondToken | LastToken

  /** The number a name carries, or `None` when the name is skipped: fewer
      than two tokens, a last token that is not all digits, or a converted
      token `int()` rejects. */
  function NameNumber(nombre: string, token: NumberToken): (r: Option<int>)
    ensures r.Some? ==> |Split(nombre)| >= 2 && IsDigitString(Split(nombre)[|Split(nombre)| - 1])
    ensures token == LastToken ==>
              (r.Some? <==> |Split(nombre)| >= 2 && IsDigitString(Split(nombre)[|Split(nombre)| - 1]))
    ensures token == LastToken && r.Some? ==> r.value == DigitsValue(Split(nombre)[|Split(nombre)| - 1])
  {
    var parts := Split(nombre);
    if |parts| >= 2 && IsDigitString(parts[|parts| - 1]) then
      ParseInt(if token == SecondToken then parts[1] else parts[|parts| - 1])
    else
      None
  }

  /** On a two-token name both readings agree. */
  lemma NumberTokensAgree(nombre: string)
    requires |Split(nombre)| == 2
    ensures NameNumber(nombre, SecondToken) == NameNumber(nombre, LastToken)
  {
  }

  /** On three-token names the readings part: the second-token reading
      converts the middle token, the last-token reading the last one. */
  lemma ThreeTokenReadings(a: string, b: string, d: string)
    requires |a| > 0 && NoSpace(a) && |b| > 0 && NoSpace(b) && IsDigitString(d) && NoSpace(d)
    ensures NameNumber(a + " " + (b + " " + d), SecondToken) == ParseInt(b)
    ensures NameNumber(a + " " + (b + " " + d), LastToken) == Some(DigitsValue(d))
  {
    SplitCons(a, b + " " + d);
    SplitTwoTokens(b, d);
  }

  /** For instance "hoja 2 9" is 2 by the second token and 9 by the last,
      and "hoja grande 7" is skipped by the second-token reading (its `int()`
      raises) but read as 7 by the last-token one. */
  lemma NumberTokensDiffer(n1: string, n2: string)
    requires n1 == "hoja 2 9" && n2 == "hoja grande 7"
    ensures NameNumber(n1, SecondToken) == Some(2) && NameNumber(n1, LastToken) == Some(9)
    ensures NameNumber(n2, SecondToken) == None && NameNumber(n2, LastToken) == Some(7)
  {
    assert n1 == "hoja" + " " + ("2" + " " + "9");
    assert n2 == "hoja" + " " + ("grande" + " " + "7");
    DigitExamples();
    ReadingsOf(n1, "hoja", "2", "9");
    ReadingsOf(n2, "hoja", "grande", "7");
  }

  lemma DigitExamples()
    ensures ParseInt("2") == Some(2) && ParseInt("grande") == None
    ensures IsDigitString("9") && DigitsValue("9") == 9 && IsDigitString("7") && DigitsValue("7") == 7
    ensures NoSpace("hoja") && NoSpace("2") && NoSpace("grande")
  {
    assert !GroupChar("grande", 0);
  }

  lemma ReadingsOf(n: string, a: string, b: string, d: string)
    requires n == a + " " + (b + " " + d)
    requires |a| > 0 && NoSpace(a) && |b| > 0 && NoSpace(b) && IsDigitString(d) && NoSpace(d)
    ensures NameNumber(n, SecondToken) == ParseInt(b)
    ensures NameNumber(n, LastToken) == Some(DigitsValue(d))
  {
    ThreeTokenReadings(a, b, d);
  }

  /** A stored record as the counter scan sees it: its subtype (`None` when
      the stored subtype is not one the generator knows) and its name. */
  datatype Sighting<T> = Sighting(tipo: Option<T>, nombre: string)

  /** The number a sighting contributes to the counter of `t`: it must be of
      subtype `t`, and its name must start with the non-empty base name of `t`
      and carry a number. */
  function Recognised<T(!new)>(names: map<T, string>, s: Sighting<T>, token: NumberToken, t: T): (r: Option<int>)
    ensures r.Some? ==> s.tipo == Some(t) && t in names && |names[t]| > 0 && StartsWith(s.nombre, names[t])
    ensures r.Some? ==> r == NameNumber(s.nombre, token)
    ensures s.tipo == Some(t) && t in names && |names[t]| > 0 && StartsWith(s.nombre, names[t]) ==>
              r == NameNumber(s.nombre, token)
  {
    if s.tipo == Some(t) && t in names && |names[t]| > 0 && StartsWith(s.nombre, names[t]) then
      NameNumber(s.nombre, token)
    else
      None
  }

  /** One iteration of the `_initialize_counters` loop: a recognised number
      above the subtype's counter replaces it. */
  function Observe<T(!new)>(c: map<T, nat>, names: map<T, string>, s: Sighting<T>, token: NumberToken): (r: map<T, nat>)
    ensures r.Keys == c.Keys
    ensures forall t :: t in c ==> c[t] <= r[t]
    ensures forall t :: t in c && Recognised(names, s, token, t).Some? ==>
                          Recognised(names, s, token, t).value <= r[t]
    ensures forall t :: t in c && r[t] != c[t] ==> Recognised(names, s, token, t) == Some(r[t] as int)
  {
    if s.tipo.Some? && s.tipo.value in c then
      var t := s.tipo.value;
      match Recognised(names, s, token, t)
      case Some(n) => if n > c[t] then c[t := n] else c
      case None => c
    else
      c
  }

  /** The whole loop, record by record in file order. */
  function Scan<T(!new)>(c: map<T, nat>, names: map<T, string>, ss: seq<Sighting<T>>, token: NumberToken): (r: map<T, nat>)
    ensures r.Keys == c.Keys
    ensures forall t :: t in c ==> c[t] <= r[t]
  {
    if |ss| == 0 then c
    else Observe(Scan(c, names, ss[..|ss| - 1], token), names, ss[|ss| - 1], token)
  }

  /** The scan of two and of three records, unrolled. */
  lemma ScanOfTwo<T(!new)>(c: map<T, nat>, names: map<T, string>, a: Sighting<T>, b: Sighting<T>, token: NumberToken)
    ensures Scan(c, names, [a, b], token) == Observe(Observe(c, names, a, token), names, b, token)
  {
    assert [a, b][..1] == [a];
    assert [a][..0] == [];
    assert Scan(c, names, [a], token) == Observe(Scan(c, names, [], token), names, a, token);
    assert Scan(c, names, [a, b], token) == Observe(Scan(c, names, [a], token), names, b, token);
  }

  lemma ScanOfThree<T(!new)>(c: map<T, nat>, names: map<T, string>, a: Sighting<T>, b: Sighting<T>, d: Sighting<T>,
                             token: NumberToken)
    ensures Scan(c, names, [a, b, d], token)
         == Observe(Observe(Observe(c, names, a, token), names, b, token), names, d, token)
  {
    assert [a, b, d][..2] == [a, b];
    ScanOfTwo(c, names, a, b, token);
  }

  /** The counters are not behind the store: no recognised number exceeds
      its subtype's counter. */
  ghost predicate CountersCover<T(!new)>(c: map<T, nat>, names: map<T, string>, ss: seq<Sighting<T>>, token: NumberToken)
  {
    forall t, i :: t in c && 0 <= i < |ss| && Recognised(names, ss[i], token, t).Some? ==>
                     Recognised(names, ss[i], token, t).value <= c[t]
  }

  /** After the scan each counter is the largest of its starting value and
      the numbers recognised for its subtype: none is larger, and the counter
      is its starting value or one of them. */
  lemma {:induction false} ScanIsMax<T(!new)>(c: map<T, nat>, names: map<T, string>, ss: seq<Sighting<T>>, token: NumberToken)
    ensures CountersCover(Scan(c, names, ss, token), names, ss, token)
    ensures forall t :: t in c ==>
              (|| Scan(c, names, ss, token)[t] == c[t]
               || exists i :: 0 <= i < |ss| && Recognised(names, ss[i], token, t) == Some(Scan(c, names, ss, token)[t] as int))
  {
    if |ss| > 0 {
      var n := |ss| - 1;
      var front := ss[..n];
      var mid := Scan(c, names, front, token);
      var r := Scan(c, names, ss, token);
      ScanIsMax(c, names, front, token);
      assert r == Observe(mid, names, ss[n], token);
      forall t, i | t in r && 0 <= i < |ss| && Recognised(names, ss[i], token, t).Some?
        ensures Recognised(names, ss[i], token, t).value <= r[t]
      {
        if i < n {
          assert ss[i] == front[i];
        }
      }
      forall t | t in c
        ensures || r[t] == c[t]
                || exists i :: 0 <= i < |ss| && Recognised(names, ss[i], token, t) == Some(r[t] as int)
      {
        if r[t] != mid[t] {
          assert Recognised(names, ss[n], token, t) == Some(r[t] as int);
        } else if mid[t] != c[t] {
          var i :| 0 <= i < n && Recognised(names, front[i], token, t) == Some(mid[t] as int);
          assert ss[i] == front[i];
        }
      }
    }
  }

  /** Whether the store could be read when the counters were built. */
  datatype ReadResult<T> = ReadOk(sightings: seq<Sighting<T>>) | ReadFailed

  /** `__init__`: stopped, the cursor at a random position, every counter at
      0 and then raised by the scan of the stored records; a failed read
      leaves every counter at 0. */
  function Init<T(!new)>(types: seq<T>, names: map<T, string>, seed: nat, read: ReadResult<T>, token: NumberToken): (st: State<T>)
    requires |types| > 0
    ensures Valid(st, types) && !st.isRunning
    ensures read.ReadFailed? ==> forall t :: t in st.counters ==> st.counters[t] == 0
    ensures read.ReadOk? ==> CountersCover(st.counters, names, read.sightings, token)
    ensures read.ReadOk? ==> forall t :: t in st.counters ==>
              (|| st.counters[t] == 0
               || exists i :: 0 <= i < |read.sightings| && Recognised(names, read.sightings[i], token, t) == Some(st.counters[t] as int))
  {
    var index := RandInt(Range(0, |types| - 1), seed);
    var zero := ZeroCounters(types);
    match read
    case ReadFailed => State(false, index, zero)
    case ReadOk(ss) =>
      ScanIsMax(zero, names, ss, token);
      State(false, index, Scan(zero, names, ss, token))
  }

  /** Every starting position of the cursor is possible. */
  lemma InitReachesEveryIndex<T(!new)>(types: seq<T>, names: map<T, string>, read: ReadResult<T>, token: NumberToken, j: nat)
    requires j < |types|
    ensures Init(types, names, j, read, token).currentTypeIndex == j
  {
  }

  // ---------------------------------------------------------------------------
  // Handing out the next subtype and number

  /** `_get_next_*_type` followed by `counters[t] += 1`: the subtype under the
      cursor, its new number, and the state with the cursor advanced and that
      counter raised. */
  function Advance<T(!new)>(st: State<T>, types: seq<T>): (r: (State<T>, T, nat))
    requires Valid(st, types)
    ensures r.1 == types[st.currentTypeIndex]
    ensures r.2 == st.counters[r.1] + 1
    ensures r.0 == st.(currentTypeIndex := Rotation.Next(types, st.currentTypeIndex).1,
                       counters := st.counters[r.1 := r.2])
    ensures Valid(r.0, types)
  {
    var (t, index) := Rotation.Next(types, st.currentTypeIndex);
    var number := st.counters[t] + 1;
    (st.(currentTypeIndex := index, counters := st.counters[t := number]), t, number)
  }

  /** `f"{base} {n}"`. */
  function GeneratedName(base: string, n: nat): (s: string)
    ensures StartsWith(s, base)
  {
    var s := base + " " + NatToString(n);
    assert s[..|base|] == base;
    s
  }

  /** A generated name is read back as its own number by either reading. */
  lemma GeneratedNameRecognised<T(!new)>(names: map<T, string>, t: T, n: nat, token: NumberToken)
    requires t in names && |names[t]| > 0 && NoSpace(names[t])
    ensures Recognised(names, Sighting(Some(t), GeneratedName(names[t], n)), token, t) == Some(n)
  {
    var digits := NatToString(n);
    SplitTwoTokens(names[t], digits);
    NatToStringRoundTrip(n);
  }

  /** Scanning a generated name whose number beats the counter raises the
      counter to that number. */
  lemma ObserveGenerated<T(!new)>(c: map<T, nat>, names: map<T, string>, t: T, n: nat, token: NumberToken)
    requires t in c && c[t] < n
    requires t in names && |names[t]| > 0 && NoSpace(names[t])
    ensures Observe(c, names, Sighting(Some(t), GeneratedName(names[t], n)), token) == c[t := n]
  {
    GeneratedNameRecognised(names, t, n, token);
  }

  /** A sighting whose name is not recognised leaves the counters alone. */
  lemma ObserveUnrecognised<T(!new)>(c: map<T, nat>, names: map<T, string>, s: Sighting<T>, token: NumberToken)
    requires s.tipo.Some? && Recognised(names, s, token, s.tipo.value).None?
    ensures Observe(c, names, s, token) == c
  {
  }

  /** Scanning generated names of three distinct subtypes, each beating its
      counter, sets those three counters to their numbers. */
  lemma ScanThreeGenerated<T(!new)>(c: map<T, nat>, names: map<T, string>, t1: T, n1: nat, t2: T, n2: nat,
                                    t3: T, n3: nat, token: NumberToken)
    requires t1 != t2 && t2 != t3 && t1 != t3
    requires t1 in c && t2 in c && t3 in c && c[t1] < n1 && c[t2] < n2 && c[t3] < n3
    requires t1 in names && |names[t1]| > 0 && NoSpace(names[t1])
    requires t2 in names && |names[t2]| > 0 && NoSpace(names[t2])
    requires t3 in names && |names[t3]| > 0 && NoSpace(names[t3])
    ensures Scan(c, names, [Sighting(Some(t1), GeneratedName(names[t1], n1)),
                            Sighting(Some(t2), GeneratedName(names[t2], n2)),
                            Sighting(Some(t3), GeneratedName(names[t3], n3))], token)
         == c[t1 := n1][t2 := n2][t3 := n3]
  {
    var a := Sighting(Some(t1), GeneratedName(names[t1], n1));
    var b := Sighting(Some(t2), GeneratedName(names[t2], n2));
    var d := Sighting(Some(t3), GeneratedName(names[t3], n3));
    ScanOfThree(c, names, a, b, d, token);
    ObserveGenerated(c, names, t1, n1, token);
    ObserveGenerated(c[t1 := n1], names, t2, n2, token);
    ObserveGenerated(c[t1 := n1][t2 := n2], names, t3, n3, token);
  }

  /** A sighting of another subtype contributes nothing to `t`. */
  lemma OtherSubtypeIgnored<T(!new)>(names: map<T, string>, s: Sighting<T>, token: NumberToken, t: T)
    requires s.tipo != Some(t)
    ensures Recognised(names, s, token, t).None?
  {
  }

  /** Generating under covering counters: the new name carries a number above
      every number recognised so far for its subtype, so no stored record of
      that subtype has the name; and once the record is stored the counters
      still cover the store. */
  lemma {:induction false} AdvanceKeepsCover<T(!new)>(st: State<T>, types: seq<T>, names: map<T, string>,
                                                ss: seq<Sighting<T>>, token: NumberToken)
    requires Valid(st, types)
    requires forall t :: t in types ==> t in names && |names[t]| > 0 && NoSpace(names[t])
    requires CountersCover(st.counters, names, ss, token)
    ensures var (after, t, n) := Advance(st, types);
            forall i :: 0 <= i < |ss| && ss[i].tipo == Some(t) ==> ss[i].nombre != GeneratedName(names[t], n)
    ensures var (after, t, n) := Advance(st, types);
            CountersCover(after.counters, names, ss + [Sighting(Some(t), GeneratedName(names[t], n))], token)
  {
    var (after, t, n) := Advance(st, types);
    var made := Sighting(Some(t), GeneratedName(names[t], n));
    GeneratedNameRecognised(names, t, n, token);
    forall i | 0 <= i < |ss| && ss[i].tipo == Some(t)
      ensures ss[i].nombre != GeneratedName(names[t], n)
    {
      var x := ss[i];
      var seen := Recognised(names, x, token, t);
      assert x.nombre == GeneratedName(names[t], n) ==> x == made;
      assert seen.Some? ==> seen.value < n;
    }
    var all := ss + [made];
    forall u, i | u in after.counters && 0 <= i < |all| && Recognised(names, all[i], token, u).Some?
      ensures Recognised(names, all[i], token, u).value <= after.counters[u]
    {
      if i < |ss| {
        assert all[i] == ss[i];
      } else if u != t {
        OtherSubtypeIgnored(names, made, token, u);
      }
    }
  }

  /** The sum of the counters over the listed subtypes. */
  function Total<T(!new)>(c: map<T, nat>, types: seq<T>): nat
    requires forall t :: t in types ==> t in c
  {
    if |types| == 0 then 0 else c[types[0]] + Total(c, types[1..])
  }

  /** Raising one counter by one raises the total by how often that subtype
      is listed. */
  lemma {:induction false} TotalBump<T(!new)>(c: map<T, nat>, types: seq<T>, t: T)
    requires forall u :: u in types ==> u in c
    requires t in c
    ensures Total(c[t := c[t] + 1], types) == Total(c, types) + multiset(types)[t]
  {
    if |types| > 0 {
      TotalBump(c, types[1..], t);
      assert types == [types[0]] + types[1..];
    }
  }

  /** Each generation raises the total of the counters by exactly one. */
  lemma AdvanceCountsOne<T(!new)>(st: State<T>, types: seq<T>)
    requires Valid(st, types)
    requires forall a, b :: 0 <= a < b < |types| ==> types[a] != types[b]
    ensures Total(Advance(st, types).0.counters, types) == Total(st.counters, types) + 1
  {
    var j := st.currentTypeIndex;
    TotalBump(st.counters, types, types[j]);
    Rotation.DistinctCountOne(types, j);
  }

  // ---------------------------------------------------------------------------
  // Starting, stopping and reporting

  /** `start()`: a running generator is left alone; otherwise it runs exactly
      when registering the job and starting the scheduler succeeded. Only the
      flag changes. */
  function Start<T(!new)>(st: State<T>, succeeds: bool): (r: State<T>)
    ensures r.currentTypeIndex == st.currentTypeIndex && r.counters == st.counters
    ensures r.isRunning <==> st.isRunning || succeeds
  {
    if st.isRunning then st else st.(isRunning := succeeds)
  }

  /** `stop()`: a stopped generator is left alone; otherwise it stops exactly
      when shutting down succeeded. Only the flag changes. */
  function Stop<T(!new)>(st: State<T>, succeeds: bool): (r: State<T>)
    ensures r.currentTypeIndex == st.currentTypeIndex && r.counters == st.counters
    ensures !r.isRunning <==> !st.isRunning || succeeds
  {
    if !st.isRunning then st else st.(isRunning := !succeeds)
  }

  /** Starting and then stopping, both succeeding, gives back a stopped
      generator unchanged; starting twice is starting once. */
  lemma StartStopRoundTrip<T(!new)>(st: State<T>, s1: bool, s2: bool)
    requires !st.isRunning
    ensures Stop(Start(st, true), true) == st
    ensures Start(Start(st, s1), s2) == Start(st, s1 || s2)
    ensures Stop(Stop(st, s1), s2) == st
  {
  }

  /** What `get_status()` reports. */
  datatype Status = Status(
    isRunning: bool,
    intervalSeconds: int,
    defaultZoneId: int,
    types: seq<string>,
    counters: seq<(string, nat)>,
    currentTypeIndex: nat,
    nextType: string)

  /** `get_status()`: the subtype codes and their counters in rotation order,
      and the code of the subtype the next generation will use. */
  function GetStatus<T(!new)>(st: State<T>, types: seq<T>, code: T -> string, interval: int, zone: int): (r: Status)
    requires Valid(st, types)
    ensures r.isRunning == st.isRunning && r.currentTypeIndex == st.currentTypeIndex
    ensures r.intervalSeconds == interval && r.defaultZoneId == zone
    ensures |r.types| == |r.counters| == |types|
    ensures forall i :: 0 <= i < |types| ==> r.types[i] == code(types[i])
    ensures forall i :: 0 <= i < |types| ==> r.counters[i] == (code(types[i]), st.counters[types[i]])
    ensures r.nextType == code(Advance(st, types).1)
  {
    Status(st.isRunning, interval, zone,
           seq(|types|, i requires 0 <= i < |types| => code(types[i])),
           seq(|types|, i requires 0 <= i < |types| => (code(types[i]), st.counters[types[i]])),
           st.currentTypeIndex,
           code(types[st.currentTypeIndex]))
  }
}
