/** The request bodies of the resource endpoints, as received and as accepted. */
module ResourceSchema {
  import opened Common
  import opened Domain

  datatype ResourceCreatePayload = ResourceCreatePayload(
    nombre: Option<string>, tipo: Option<string>, cantidadUnitaria: Option<int>,
    peso: Option<int>, duracionRecoleccion: Option<int>, hormigasRequeridas: Option<int>)

  datatype ResourceCreate = ResourceCreate(
    nombre: string, tipo: ResourceType, cantidadUnitaria: int,
    peso: int, duracionRecoleccion: int, hormigasRequeridas: int)

  /** Every field present, a non-empty name, a known resource type and four
      positive numbers. */
  predicate AcceptsResourceCreate(p: ResourceCreatePayload)
  {
    && p.nombre.Some? && p.tipo.Some? && p.cantidadUnitaria.Some?
    && p.peso.Some? && p.duracionRecoleccion.Some? && p.hormigasRequeridas.Some?
    && |p.nombre.value| >= 1
    && ParseResourceType(p.tipo.value).Some?
    && p.cantidadUnitaria.value > 0 && p.peso.value > 0
    && p.duracionRecoleccion.value > 0 && p.hormigasRequeridas.value > 0
  }

  /** `ResourceCreate`. */
  function ValidateResourceCreate(p: ResourceCreatePayload): (r: Validation<ResourceCreate>)
    ensures r.Valid? <==> AcceptsResourceCreate(p)
    ensures r.Valid? ==> (r.value.nombre == p.nombre.value && ResourceTypeCode(r.value.tipo) == p.tipo.value
                          && r.value.cantidadUnitaria == p.cantidadUnitaria.value && r.value.peso == p.peso.value
                          && r.value.duracionRecoleccion == p.duracionRecoleccion.value
                          && r.value.hormigasRequeridas == p.hormigasRequeridas.value)
  {
    match (p.nombre, p.tipo, p.cantidadUnitaria, p.peso, p.duracionRecoleccion, p.hormigasRequeridas)
    case (Some(n), Some(t), Some(c), Some(w), Some(d), Some(a)) =>
      (match ParseResourceType(t)
       case None => Rejected
       case Some(tipo) =>
         if |n| < 1 || c <= 0 || w <= 0 || d <= 0 || a <= 0 then Rejected
         else Valid(ResourceCreate(n, tipo, c, w, d, a)))
    case _ => Rejected
  }

  /** An unknown type, a zero quantity or a missing field each reject the body. */
  lemma ResourceCreateExamples()
    ensures ValidateResourceCreate(ResourceCreatePayload(Some("Hoja grande"), Some("LIQUIDO"), Some(5), Some(2), Some(10), Some(3))).Rejected?
    ensures ValidateResourceCreate(ResourceCreatePayload(Some("Hoja grande"), Some("HOJA"), Some(0), Some(2), Some(10), Some(3))).Rejected?
    ensures ValidateResourceCreate(ResourceCreatePayload(Some("Hoja grande"), None, Some(5), Some(2), Some(10), Some(3))).Rejected?
    ensures ValidateResourceCreate(ResourceCreatePayload(Some("Hoja grande"), Some("HOJA"), Some(5), Some(2), Some(10), Some(3)))
            == Valid(ResourceCreate("Hoja grande", Hoja, 5, 2, 10, 3))
  {
  }

  datatype ResourceUpdatePayload = ResourceUpdatePayload(estado: Option<string>, cantidadUnitaria: Option<int>)

  /** An accepted `ResourceUpdate`: the target state and an optional quantity. */
  datatype ResourceUpdate = ResourceUpdate(estado: ResourceState, cantidadUnitaria: Option<int>)

  /** `ResourceUpdate`: `estado` is required and must name a resource state;
      the quantity is optional and unconstrained here. */
  function ValidateResourceUpdate(p: ResourceUpdatePayload): (r: Validation<ResourceUpdate>)
    ensures r.Valid? <==> p.estado.Some? && ParseResourceState(p.estado.value).Some?
    ensures r.Valid? ==> ResourceStateCode(r.value.estado) == p.estado.value && r.value.cantidadUnitaria == p.cantidadUnitaria
  {
    match p.estado
    case None => Rejected
    case Some(e) =>
      match ParseResourceState(e)
      case None => Rejected
      case Some(state) => Valid(ResourceUpdate(state, p.cantidadUnitaria))
  }
}
