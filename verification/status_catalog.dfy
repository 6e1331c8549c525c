/** The fixed, read-only catalog of status values (three for resources, three
    for threats) and its category filter. */
module StatusCatalog {
  import opened Common
  import opened Domain
  import opened Text
  import opened SeqStore

  const Catalog: seq<StatusInfo> := [
    StatusInfo("disponible", "Disponible", "Recurso listo para ser recolectado", "recurso"),
    StatusInfo("en_recoleccion", "En recolección", "Recurso siendo recolectado por hormigas trabajadoras", "recurso"),
    StatusInfo("recolectado", "Recolectado", "Recurso completamente recolectado y almacenado", "recurso"),
    StatusInfo("activa", "Activa", "Amenaza detectada y presente en la zona", "amenaza"),
    StatusInfo("en_combate", "En combate", "Amenaza siendo enfrentada por las hormigas defensoras", "amenaza"),
    StatusInfo("resuelta", "Resuelta", "Amenaza neutralizada o eliminada", "amenaza")
  ]

  /** Six entries, the three resource states first, then the three threat
      states, with pairwise distinct codes matching the state enumerations. */
  lemma CatalogShape()
    ensures |Catalog| == 6
    ensures forall i :: 0 <= i < 3 ==> Catalog[i].categoria == "recurso"
    ensures forall i :: 3 <= i < 6 ==> Catalog[i].categoria == "amenaza"
    ensures forall i, j :: 0 <= i < j < |Catalog| ==> Catalog[i].codigo != Catalog[j].codigo
    ensures Catalog[0].codigo == ResourceStateCode(Disponible)
    ensures Catalog[1].codigo == ResourceStateCode(EnRecoleccion)
    ensures Catalog[2].codigo == ResourceStateCode(Recolectado)
    ensures Catalog[3].codigo == ThreatStateCode(Activa)
    ensures Catalog[4].codigo == ThreatStateCode(EnCombate)
    ensures Catalog[5].codigo == ThreatStateCode(Resuelta)
  {
  }

  /** `get_all_statuses(categoria)`: the whole catalog when the category is
      absent or empty, otherwise the entries of the lower-cased category. */
  function GetAllStatuses(categoria: Option<string>): (r: seq<StatusInfo>)
    ensures categoria.None? || categoria.value == "" ==> r == Catalog
    ensures categoria.Some? && categoria.value != "" ==>
              (forall i :: 0 <= i < |r| ==> r[i] in Catalog && r[i].categoria == Lower(categoria.value))
              && (forall i :: 0 <= i < |Catalog| && Catalog[i].categoria == Lower(categoria.value) ==> Catalog[i] in r)
  {
    match categoria
    case None => Catalog
    case Some(c) => if c == "" then Catalog else Filter(Catalog, (s: StatusInfo) => s.categoria == Lower(c))
  }

  /** Filtering by `recurso` or `amenaza` (in any letter case) gives that half
      of the catalog, in catalog order. */
  lemma FilterByCategory(c: string)
    ensures Lower(c) == "recurso" ==> GetAllStatuses(Some(c)) == Catalog[..3]
    ensures Lower(c) == "amenaza" ==> GetAllStatuses(Some(c)) == Catalog[3..]
  {
    if Lower(c) == "recurso" {
      ResourceHalf(c, Lower(c));
    } else if Lower(c) == "amenaza" {
      ThreatHalf(c, Lower(c));
    }
  }

  lemma ResourceHalf(c: string, lc: string)
    requires lc == Lower(c) && lc == "recurso"
    ensures GetAllStatuses(Some(c)) == Catalog[..3]
  {
    assert |c| == |lc|;
    CatalogShape();
    FilterPrefix(Catalog, 3, (s: StatusInfo) => s.categoria == lc);
  }

  lemma ThreatHalf(c: string, lc: string)
    requires lc == Lower(c) && lc == "amenaza"
    ensures GetAllStatuses(Some(c)) == Catalog[3..]
  {
    assert |c| == |lc|;
    CatalogShape();
    FilterSuffix(Catalog, 3, (s: StatusInfo) => s.categoria == lc);
  }

  /** Any other non-empty category yields no entries. */
  lemma UnknownCategoryEmpty(c: string)
    requires c != "" && Lower(c) != "recurso" && Lower(c) != "amenaza"
    ensures GetAllStatuses(Some(c)) == []
  {
    var lc := Lower(c);
    CatalogShape();
    FilterNone(Catalog, (s: StatusInfo) => s.categoria == lc);
  }
}
