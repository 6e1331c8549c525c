/** The status and type endpoints: the fixed status list, and create, list,
    update and delete of dynamic types. */
module TypesController {
  import opened Common
  import opened Domain
  import opened Text
  import opened StatusCatalog
  import opened TypeRepository
  import opened TypeSchema

  /** The categories the status endpoint accepts. */
  const StatusCategories: seq<string> := ["recurso", "amenaza"]

  /** `obtener_estados`: 400 for a non-empty category that is not `recurso` or
      `amenaza` in some letter case, otherwise the catalog filtered by it. */
  function ObtenerEstados(categoria: Option<string>): (r: Reply<seq<StatusInfo>>)
    ensures r.Fail? <==> categoria.Some? && categoria.value != "" && Lower(categoria.value) !in StatusCategories
    ensures r.Fail? ==> r.error == BadRequest
    ensures r.Ok? ==> r.body == GetAllStatuses(categoria)
  {
    if categoria.Some? && categoria.value != "" && Lower(categoria.value) !in StatusCategories then Fail(BadRequest)
    else Ok(GetAllStatuses(categoria))
  }

  /** An accepted status query answers all six statuses, or exactly the three
      of the requested category. */
  lemma ObtenerEstadosHalves(categoria: Option<string>)
    requires ObtenerEstados(categoria).Ok?
    ensures categoria.None? || categoria.value == "" ==> ObtenerEstados(categoria).body == Catalog
    ensures categoria.Some? && Lower(categoria.value) == "recurso" ==> ObtenerEstados(categoria).body == Catalog[..3]
    ensures categoria.Some? && Lower(categoria.value) == "amenaza" ==> ObtenerEstados(categoria).body == Catalog[3..]
    ensures |ObtenerEstados(categoria).body| == (if categoria.None? || categoria.value == "" then 6 else 3)
  {
    CatalogShape();
    if categoria.Some? && categoria.value != "" {
      FilterByCategory(categoria.value);
    }
  }

  /** The entry `crear_tipo` hands to the repository. */
  function NewType(data: TypeCreate, now: Time): TypeEntry
  {
    TypeEntry(0, data.codigo, data.nombre, data.descripcion, data.categoria, now)
  }

  /** `crear_tipo`: 409 when the code already exists in the category,
      otherwise the type is stored under a fresh id (201). */
  function CrearTipo(rows: seq<TypeEntry>, data: TypeCreate, now: Time): (r: (seq<TypeEntry>, Reply<TypeEntry>))
    ensures CodigoExists(rows, data.codigo, data.categoria) ==> r == (rows, Fail(Conflict))
    ensures !CodigoExists(rows, data.codigo, data.categoria) ==>
              && r.1.Created?
              && r.1.body == NewType(data, now).(id := r.1.body.id)
              && r.0 == rows + [r.1.body]
              && (forall i :: 0 <= i < |rows| ==> rows[i].id < r.1.body.id)
  {
    if CodigoExists(rows, data.codigo, data.categoria) then (rows, Fail(Conflict))
    else
      var (after, created) := Create(rows, NewType(data, now));
      (after, Created(created))
  }

  /** With a category as the schema stores it, creating the same code twice
      in the same category is refused the second time. */
  lemma CrearTipoTwice(rows: seq<TypeEntry>, data: TypeCreate, t1: Time, t2: Time)
    requires data.categoria in TypeCategories
    requires CrearTipo(rows, data, t1).1.Created?
    ensures var after := CrearTipo(rows, data, t1).0;
            CrearTipo(after, data, t2) == (after, Fail(Conflict))
  {
    var (after, reply) := CrearTipo(rows, data, t1);
    assert after[|rows|] == reply.body;
    LowerFixed(data.categoria);
    assert CodeMatches(after[|rows|], data.codigo, Some(data.categoria));
  }

  /** `listar_tipos`: 400 for a non-empty category outside the three, otherwise
      the stored types filtered by it (an empty category is passed on as is). */
  function ListarTipos(rows: seq<TypeEntry>, categoria: Option<string>): (r: Reply<seq<TypeEntry>>)
    ensures r.Fail? <==> categoria.Some? && categoria.value != "" && Lower(categoria.value) !in TypeCategories
    ensures r.Fail? ==> r.error == BadRequest
    ensures r.Ok? ==> r.body == GetAll(rows, categoria)
  {
    if categoria.Some? && categoria.value != "" && Lower(categoria.value) !in TypeCategories then Fail(BadRequest)
    else Ok(GetAll(rows, categoria))
  }

  /** `actualizar_tipo`: 404 for an unknown id; otherwise name and description
      are replaced only by non-empty values, and code, category, id and
      creation time are kept. */
  function ActualizarTipo(rows: seq<TypeEntry>, id: int, upd: TypeUpdatePayload): (r: (seq<TypeEntry>, Reply<TypeEntry>))
    ensures GetById(rows, id).None? ==> r == (rows, Fail(NotFound))
    ensures GetById(rows, id).Some? ==>
              var before := GetById(rows, id).value;
              && r.1.Ok?
              && r.1.body.id == id && r.1.body.codigo == before.codigo
              && r.1.body.categoria == before.categoria && r.1.body.fechaCreacion == before.fechaCreacion
              && r.1.body.nombre == (if upd.nombre.Some? && upd.nombre.value != "" then upd.nombre.value else before.nombre)
              && r.1.body.descripcion == (if upd.descripcion.Some? && upd.descripcion.value != "" then upd.descripcion.value else before.descripcion)
              && r.0 == Update(rows, id, r.1.body).0
  {
    match GetById(rows, id)
    case None => (rows, Fail(NotFound))
    case Some(t) =>
      var named := if upd.nombre.Some? && upd.nombre.value != "" then t.(nombre := upd.nombre.value) else t;
      var edited := if upd.descripcion.Some? && upd.descripcion.value != "" then named.(descripcion := upd.descripcion.value) else named;
      (Update(rows, id, edited).0, Ok(edited.(id := id)))
  }

  /** After an update the id leads to the answered entry, and no row of
      another id changed. */
  lemma ActualizarTipoThenGet(rows: seq<TypeEntry>, id: int, upd: TypeUpdatePayload)
    requires ActualizarTipo(rows, id, upd).1.Ok?
    ensures GetById(ActualizarTipo(rows, id, upd).0, id) == Some(ActualizarTipo(rows, id, upd).1.body)
    ensures forall i :: 0 <= i < |rows| && rows[i].id != id ==> ActualizarTipo(rows, id, upd).0[i] == rows[i]
  {
    var body := ActualizarTipo(rows, id, upd).1.body;
    UpdateThenGet(rows, id, body);
    assert body.(id := id) == body;
  }

  /** `eliminar_tipo`: always 200, with the idempotent message when nothing
      was stored under the id; afterwards the id is gone. */
  function EliminarTipo(rows: seq<TypeEntry>, id: int): (r: (seq<TypeEntry>, Reply<DeleteNote>))
    ensures r.1.Ok?
    ensures r.1.body == Removed <==> GetById(rows, id).Some?
    ensures GetById(r.0, id).None?
    ensures GetById(rows, id).None? ==> r.0 == rows
    ensures r.0 == Delete(rows, id).0
  {
    var (after, deleted) := Delete(rows, id);
    (after, Ok(if deleted then Removed else WasAbsent))
  }
}
