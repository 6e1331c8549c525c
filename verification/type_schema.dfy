/** The request bodies of the type endpoints, as received (every field may be
    missing) and as accepted. */
module TypeSchema {
  import opened Common
  import opened Text

  datatype TypeCreatePayload = TypeCreatePayload(
    codigo: Option<string>, nombre: Option<string>, descripcion: Option<string>, categoria: Option<string>)

  /** An accepted `TypeCreate`; `categoria` is already lower-cased. */
  datatype TypeCreate = TypeCreate(codigo: string, nombre: string, descripcion: string, categoria: string)

  /** The categories a type may belong to. */
  const TypeCategories: seq<string> := ["zona", "recurso", "amenaza"]

  /** Every field present, the three texts non-empty, the category one of the
      three in any letter case, and the code upper-case. */
  predicate AcceptsTypeCreate(p: TypeCreatePayload)
  {
    && p.codigo.Some? && p.nombre.Some? && p.descripcion.Some? && p.categoria.Some?
    && |p.codigo.value| >= 1 && |p.nombre.value| >= 1 && |p.descripcion.value| >= 1
    && Lower(p.categoria.value) in TypeCategories
    && IsUpper(p.codigo.value)
  }

  /** `TypeCreate`: the field constraints, then `validate_categoria` (which
      stores the lower-cased category) and `validate_codigo`. */
  function ValidateTypeCreate(p: TypeCreatePayload): (r: Validation<TypeCreate>)
    ensures r.Valid? <==> AcceptsTypeCreate(p)
    ensures r.Valid? ==> (r.value.codigo == p.codigo.value && r.value.nombre == p.nombre.value
                          && r.value.descripcion == p.descripcion.value
                          && r.value.categoria == Lower(p.categoria.value))
    ensures r.Valid? ==> r.value.categoria in TypeCategories && IsUpper(r.value.codigo)
  {
    match (p.codigo, p.nombre, p.descripcion, p.categoria)
    case (Some(c), Some(n), Some(d), Some(cat)) =>
      if |c| < 1 || |n| < 1 || |d| < 1 then Rejected
      else if Lower(cat) !in TypeCategories then Rejected
      else if !IsUpper(c) then Rejected
      else Valid(TypeCreate(c, n, d, Lower(cat)))
    case _ => Rejected
  }

  /** Feeding an accepted body back through the schema accepts it unchanged:
      the stored category is already in its normal form. */
  lemma ValidateTypeCreateIdempotent(p: TypeCreatePayload)
    requires ValidateTypeCreate(p).Valid?
    ensures var v := ValidateTypeCreate(p).value;
            ValidateTypeCreate(TypeCreatePayload(Some(v.codigo), Some(v.nombre), Some(v.descripcion), Some(v.categoria)))
            == Valid(v)
  {
    LowerIdempotent(p.categoria.value);
  }

  /** A lower-case code is refused, and the category is accepted in any case
      and stored lower-cased. */
  lemma TypeCreateExamples()
    ensures ValidateTypeCreate(TypeCreatePayload(Some("minusculas"), Some("N"), Some("D"), Some("zona"))).Rejected?
    ensures ValidateTypeCreate(TypeCreatePayload(Some("HOJA"), Some("Hoja"), Some("Hoja verde"), Some("RECURSO")))
            == Valid(TypeCreate("HOJA", "Hoja", "Hoja verde", "recurso"))
    ensures ValidateTypeCreate(TypeCreatePayload(Some("AGUILA"), Some("A"), Some("D"), Some("planeta"))).Rejected?
  {
    assert IsLowerLetter("minusculas"[0]);
    assert Lower("RECURSO") == "recurso";
    assert IsUpperLetter("HOJA"[0]);
    assert Lower("planeta") == "planeta";
  }

  datatype TypeUpdatePayload = TypeUpdatePayload(nombre: Option<string>, descripcion: Option<string>)

  /** `TypeUpdate`: both fields optional, but non-empty when given. */
  function ValidateTypeUpdate(p: TypeUpdatePayload): (r: Validation<TypeUpdatePayload>)
    ensures r.Valid? <==> (p.nombre.None? || |p.nombre.value| >= 1) && (p.descripcion.None? || |p.descripcion.value| >= 1)
    ensures r.Valid? ==> r.value == p
  {
    if (p.nombre.Some? && |p.nombre.value| < 1) || (p.descripcion.Some? && |p.descripcion.value| < 1) then Rejected
    else Valid(p)
  }
}
