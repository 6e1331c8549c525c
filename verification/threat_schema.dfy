/** The request bodies of the threat endpoints, as received and as accepted. */
module ThreatSchema {
  import opened Common

  datatype ThreatCreatePayload = ThreatCreatePayload(nombre: Option<string>, tipo: Option<string>, costoHormigas: Option<int>)

  datatype ThreatCreate = ThreatCreate(nombre: string, tipo: string, costoHormigas: int)

  /** `ThreatCreate`: all three fields present, name and type non-empty, a
      positive cost. The type is any non-empty text. */
  function ValidateThreatCreate(p: ThreatCreatePayload): (r: Validation<ThreatCreate>)
    ensures r.Valid? <==> (p.nombre.Some? && p.tipo.Some? && p.costoHormigas.Some?
                           && |p.nombre.value| >= 1 && |p.tipo.value| >= 1 && p.costoHormigas.value > 0)
    ensures r.Valid? ==> r.value == ThreatCreate(p.nombre.value, p.tipo.value, p.costoHormigas.value)
  {
    match (p.nombre, p.tipo, p.costoHormigas)
    case (Some(n), Some(t), Some(c)) =>
      if |n| < 1 || |t| < 1 || c <= 0 then Rejected else Valid(ThreatCreate(n, t, c))
    case _ => Rejected
  }

  /** Costs 0 and -5 and a missing name are rejected; an unlisted type such as
      "DINOSAURIO" is accepted by this schema. */
  lemma ThreatCreateExamples()
    ensures ValidateThreatCreate(ThreatCreatePayload(Some("Araña"), Some("ARANA"), Some(0))).Rejected?
    ensures ValidateThreatCreate(ThreatCreatePayload(Some("Araña"), Some("ARANA"), Some(-5))).Rejected?
    ensures ValidateThreatCreate(ThreatCreatePayload(None, Some("ARANA"), Some(3))).Rejected?
    ensures ValidateThreatCreate(ThreatCreatePayload(Some("Dino"), Some("DINOSAURIO"), Some(3)))
            == Valid(ThreatCreate("Dino", "DINOSAURIO", 3))
  {
  }

  datatype ThreatUpdatePayload = ThreatUpdatePayload(estado: Option<string>)

  /** `ThreatUpdate`: `estado` is required, with no restriction on its text. */
  function ValidateThreatUpdate(p: ThreatUpdatePayload): (r: Validation<string>)
    ensures r.Valid? <==> p.estado.Some?
    ensures r.Valid? ==> r.value == p.estado.value
  {
    match p.estado
    case None => Rejected
    case Some(e) => Valid(e)
  }
}
