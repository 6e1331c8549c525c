/** The status table as a sequence of rows: seeded with the fixed catalog
    when empty, then only read. */
module StatusRepository {
  import opened Common
  import opened Domain
  import opened Text
  import opened SeqStore
  import opened StatusCatalog

  /** `_initialize_statuses`: the rows after construction — the fixed catalog
      when the table holds no row, otherwise the table as it was. */
  function Initialize(rows: seq<StatusInfo>): (r: seq<StatusInfo>)
    ensures |r| > 0
    ensures |rows| > 0 ==> r == rows
  {
    if |rows| == 0 then Catalog else rows
  }

  /** Seeding happens at most once: constructing the repository again over a
      seeded table changes nothing. */
  lemma InitializeIdempotent(rows: seq<StatusInfo>)
    ensures Initialize(Initialize(rows)) == Initialize(rows)
    ensures |rows| == 0 ==> Initialize(rows) == Catalog
  {
  }

  /** `get_all(categoria)`: every row when no category is given, otherwise the
      rows whose category equals the lower-cased filter, in table order. */
  function GetAll(rows: seq<StatusInfo>, categoria: Option<string>): (r: seq<StatusInfo>)
    ensures categoria.None? ==> r == rows
    ensures forall i :: 0 <= i < |r| ==> r[i] in rows && CategoryMatches(r[i].categoria, categoria)
    ensures forall i :: 0 <= i < |rows| && CategoryMatches(rows[i].categoria, categoria) ==> rows[i] in r
  {
    var p := (s: StatusInfo) => CategoryMatches(s.categoria, categoria);
    if categoria.None? then
      FilterAll(rows, p);
      Filter(rows, p)
    else
      Filter(rows, p)
  }

  /** The filter keeps table order and duplicates: one more row adds that row
      at the end of the listing exactly when it passes. */
  lemma GetAllAppend(rows: seq<StatusInfo>, x: StatusInfo, categoria: Option<string>)
    ensures GetAll([], categoria) == []
    ensures GetAll(rows + [x], categoria)
            == GetAll(rows, categoria) + (if CategoryMatches(x.categoria, categoria) then [x] else [])
  {
    FilterSnoc(rows, x, (s: StatusInfo) => CategoryMatches(s.categoria, categoria));
  }

  /** After seeding an empty table there are three statuses per category,
      resources first. */
  lemma SeededPerCategory()
    ensures GetAll(Initialize([]), Some("recurso")) == Catalog[..3]
    ensures GetAll(Initialize([]), Some("amenaza")) == Catalog[3..]
  {
    SeededResources();
    SeededThreats();
  }

  lemma SeededResources()
    ensures GetAll(Initialize([]), Some("recurso")) == Catalog[..3]
  {
    CatalogShape();
    LowerFixed("recurso");
    FilterPrefix(Catalog, 3, (s: StatusInfo) => CategoryMatches(s.categoria, Some("recurso")));
  }

  lemma SeededThreats()
    ensures GetAll(Initialize([]), Some("amenaza")) == Catalog[3..]
  {
    CatalogShape();
    LowerFixed("amenaza");
    FilterSuffix(Catalog, 3, (s: StatusInfo) => CategoryMatches(s.categoria, Some("amenaza")));
  }

  /** The row `get_by_codigo` stops at: same code and a matching category. */
  predicate CodeMatches(s: StatusInfo, codigo: string, categoria: Option<string>)
  {
    s.codigo == codigo && CategoryMatches(s.categoria, categoria)
  }

  /** `get_by_codigo(codigo, categoria)`: the first row with that code (in the
      category, when one is given). */
  function GetByCodigo(rows: seq<StatusInfo>, codigo: string, categoria: Option<string>): (r: Option<StatusInfo>)
    ensures r.Some? ==> exists k :: 0 <= k < |rows| && rows[k] == r.value && CodeMatches(rows[k], codigo, categoria)
                                  && forall j :: 0 <= j < k ==> !CodeMatches(rows[j], codigo, categoria)
    ensures r.None? ==> forall i :: 0 <= i < |rows| ==> !CodeMatches(rows[i], codigo, categoria)
  {
    match FindFirst(rows, (s: StatusInfo) => CodeMatches(s, codigo, categoria))
    case None => None
    case Some(k) => Some(rows[k])
  }

  /** `codigo_exists`: some row has that code in the requested category. */
  function CodigoExists(rows: seq<StatusInfo>, codigo: string, categoria: Option<string>): (b: bool)
    ensures b <==> exists i :: 0 <= i < |rows| && CodeMatches(rows[i], codigo, categoria)
  {
    GetByCodigo(rows, codigo, categoria).Some?
  }

  /** Every code of the seeded table can be found in its own category. */
  lemma SeededCodesExist(j: nat)
    requires j < 6
    ensures CodigoExists(Initialize([]), Catalog[j].codigo, Some(Catalog[j].categoria))
  {
    CatalogShape();
    var c := Catalog[j].categoria;
    assert c == "recurso" || c == "amenaza";
    LowerFixed("recurso");
    LowerFixed("amenaza");
    assert CodeMatches(Catalog[j], Catalog[j].codigo, Some(c));
  }
}
