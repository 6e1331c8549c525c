/** The entities of the ecosystem: zones, resources, threats, dynamic types
    and status descriptions, with the string codes their enumerations are
    stored and exchanged as. */
module Domain {
  import opened Common
  import Text

  /** The seven resource kinds the resource generator rotates over. */
  datatype ResourceType = Hoja | Semilla | Flor | Fruto | Nectar | Hongo | Agua

  function ResourceTypeCode(t: ResourceType): string
  {
    match t
    case Hoja => "HOJA"
    case Semilla => "SEMILLA"
    case Flor => "FLOR"
    case Fruto => "FRUTO"
    case Nectar => "NECTAR"
    case Hongo => "HONGO"
    case Agua => "AGUA"
  }

  /** `TipoRecurso(s)`: the member whose value is `s`, if any. */
  function ParseResourceType(s: string): (r: Option<ResourceType>)
    ensures r.Some? ==> ResourceTypeCode(r.value) == s
    ensures r.None? ==> forall t: ResourceType :: ResourceTypeCode(t) != s
  {
    if s == "HOJA" then Some(Hoja)
    else if s == "SEMILLA" then Some(Semilla)
    else if s == "FLOR" then Some(Flor)
    else if s == "FRUTO" then Some(Fruto)
    else if s == "NECTAR" then Some(Nectar)
    else if s == "HONGO" then Some(Hongo)
    else if s == "AGUA" then Some(Agua)
    else None
  }

  /** Life cycle of a resource: available, being collected, collected. */
  datatype ResourceState = Disponible | EnRecoleccion | Recolectado

  function ResourceStateCode(e: ResourceState): string
  {
    match e
    case Disponible => "disponible"
    case EnRecoleccion => "en_recoleccion"
    case Recolectado => "recolectado"
  }

  /** `EstadoRecurso(s)`. */
  function ParseResourceState(s: string): (r: Option<ResourceState>)
    ensures r.Some? ==> ResourceStateCode(r.value) == s
    ensures r.None? ==> forall e: ResourceState :: ResourceStateCode(e) != s
  {
    if s == "disponible" then Some(Disponible)
    else if s == "en_recoleccion" then Some(EnRecoleccion)
    else if s == "recolectado" then Some(Recolectado)
    else None
  }

  /** The kinds of threat the threat generator rotates over. */
  datatype ThreatType = Arana | Abeja | Saltamontes

  function ThreatTypeCode(t: ThreatType): string
  {
    match t
    case Arana => "ARANA"
    case Abeja => "ABEJA"
    case Saltamontes => "SALTAMONTES"
  }

  function ParseThreatType(s: string): (r: Option<ThreatType>)
    ensures r.Some? ==> ThreatTypeCode(r.value) == s
    ensures r.None? ==> forall t: ThreatType :: ThreatTypeCode(t) != s
  {
    if s == "ARANA" then Some(Arana)
    else if s == "ABEJA" then Some(Abeja)
    else if s == "SALTAMONTES" then Some(Saltamontes)
    else None
  }

  /** Life cycle of a threat: active, in combat, resolved. */
  datatype ThreatState = Activa | EnCombate | Resuelta

  function ThreatStateCode(e: ThreatState): string
  {
    match e
    case Activa => "activa"
    case EnCombate => "en_combate"
    case Resuelta => "resuelta"
  }

  function ParseThreatState(s: string): (r: Option<ThreatState>)
    ensures r.Some? ==> ThreatStateCode(r.value) == s
    ensures r.None? ==> forall e: ThreatState :: ThreatStateCode(e) != s
  {
    if s == "activa" then Some(Activa)
    else if s == "en_combate" then Some(EnCombate)
    else if s == "resuelta" then Some(Resuelta)
    else None
  }

  datatype ZoneType = Jardin | Lago | Arena | Arbol | Casa | Planta

  datatype Zone = Zone(id: int, nombre: string, tipo: ZoneType, fechaCreacion: Time)

  datatype Resource = Resource(
    id: int,
    zonaId: int,
    nombre: string,
    tipo: ResourceType,
    cantidadUnitaria: int,
    peso: int,
    duracionRecoleccion: int,
    hormigasRequeridas: int,
    estado: ResourceState,
    horaCreacion: Time,
    horaRecoleccion: Option<Time>)

  /** A threat; its `tipo` is a free string checked only for non-emptiness. */
  datatype Threat = Threat(
    id: int,
    zonaId: int,
    nombre: string,
    tipo: string,
    costoHormigas: int,
    estado: ThreatState,
    horaDeteccion: Time,
    horaResolucion: Option<Time>)

  /** A dynamic catalog entry for a zone, resource or threat type. */
  datatype TypeEntry = TypeEntry(
    id: int,
    codigo: string,
    nombre: string,
    descripcion: string,
    categoria: string,
    fechaCreacion: Time)

  /** A description of one status value. */
  datatype StatusInfo = StatusInfo(codigo: string, nombre: string, descripcion: string, categoria: string)

  /** The category filter of the type and status catalogs: no filter, or a
      stored category equal to the lower-cased filter. */
  predicate CategoryMatches(categoria: string, filter: Option<string>)
  {
    filter.None? || categoria == Text.Lower(filter.value)
  }
}
