/** The dynamic type catalog (zone, resource and threat types) as a sequence
    of rows in file order. */
module TypeRepository {
  import opened Common
  import opened Domain
  import opened SeqStore

  function IdOf(t: TypeEntry): int { t.id }

  /** `get_all(categoria)`: every row when no category is given, otherwise the
      rows whose category equals the lower-cased filter, in file order. */
  function GetAll(rows: seq<TypeEntry>, categoria: Option<string>): (r: seq<TypeEntry>)
    ensures categoria.None? ==> r == rows
    ensures forall i :: 0 <= i < |r| ==> r[i] in rows && CategoryMatches(r[i].categoria, categoria)
    ensures forall i :: 0 <= i < |rows| && CategoryMatches(rows[i].categoria, categoria) ==> rows[i] in r
  {
    var p := (t: TypeEntry) => CategoryMatches(t.categoria, categoria);
    if categoria.None? then
      FilterAll(rows, p);
      Filter(rows, p)
    else
      Filter(rows, p)
  }

  /** The filter keeps file order and duplicates: one more row adds that row
      at the end of the listing exactly when it passes. */
  lemma GetAllAppend(rows: seq<TypeEntry>, x: TypeEntry, categoria: Option<string>)
    ensures GetAll([], categoria) == []
    ensures GetAll(rows + [x], categoria)
            == GetAll(rows, categoria) + (if CategoryMatches(x.categoria, categoria) then [x] else [])
  {
    FilterSnoc(rows, x, (t: TypeEntry) => CategoryMatches(t.categoria, categoria));
  }

  /** `get_by_id`: the first row with that id. */
  function GetById(rows: seq<TypeEntry>, id: int): (r: Option<TypeEntry>)
    ensures r.Some? ==> exists k :: 0 <= k < |rows| && rows[k] == r.value && rows[k].id == id
                                  && forall j :: 0 <= j < k ==> rows[j].id != id
    ensures r.None? ==> forall i :: 0 <= i < |rows| ==> rows[i].id != id
  {
    match FindFirst(rows, (t: TypeEntry) => t.id == id)
    case None => None
    case Some(k) => Some(rows[k])
  }

  /** The row `get_by_codigo` stops at: same code and a matching category. */
  predicate CodeMatches(t: TypeEntry, codigo: string, categoria: Option<string>)
  {
    t.codigo == codigo && CategoryMatches(t.categoria, categoria)
  }

  /** `get_by_codigo(codigo, categoria)`: the first row with that code (in the
      category, when one is given). */
  function GetByCodigo(rows: seq<TypeEntry>, codigo: string, categoria: Option<string>): (r: Option<TypeEntry>)
    ensures r.Some? ==> exists k :: 0 <= k < |rows| && rows[k] == r.value && CodeMatches(rows[k], codigo, categoria)
                                  && forall j :: 0 <= j < k ==> !CodeMatches(rows[j], codigo, categoria)
    ensures r.None? ==> forall i :: 0 <= i < |rows| ==> !CodeMatches(rows[i], codigo, categoria)
  {
    match FindFirst(rows, (t: TypeEntry) => CodeMatches(t, codigo, categoria))
    case None => None
    case Some(k) => Some(rows[k])
  }

  /** `codigo_exists(codigo, categoria)`: some row has that code in that category. */
  function CodigoExists(rows: seq<TypeEntry>, codigo: string, categoria: string): (b: bool)
    ensures b <==> exists i :: 0 <= i < |rows| && CodeMatches(rows[i], codigo, Some(categoria))
  {
    GetByCodigo(rows, codigo, Some(categoria)).Some?
  }

  /** `create`: the entry gets `max(ids, default=0) + 1` and is appended. */
  function Create(rows: seq<TypeEntry>, t: TypeEntry): (r: (seq<TypeEntry>, TypeEntry))
    ensures r.1 == t.(id := r.1.id)
    ensures forall i :: 0 <= i < |rows| ==> rows[i].id < r.1.id
    ensures |rows| == 0 ==> r.1.id == 1
    ensures |r.0| == |rows| + 1 && r.0[..|rows|] == rows && r.0[|rows|] == r.1
  {
    var created := t.(id := NextId(rows, IdOf));
    (rows + [created], created)
  }

  /** A created entry is found under its new id, and ids stay unique. */
  lemma CreateThenGet(rows: seq<TypeEntry>, t: TypeEntry)
    ensures GetById(Create(rows, t).0, Create(rows, t).1.id) == Some(Create(rows, t).1)
    ensures UniqueKeys(rows, IdOf) ==> UniqueKeys(Create(rows, t).0, IdOf)
  {
    var (after, created) := Create(rows, t);
    assert after == rows + [created];
    FindFirstAppendFresh(rows, created, (x: TypeEntry) => x.id == created.id);
    if UniqueKeys(rows, IdOf) {
      AppendNextIdUnique(rows, IdOf, created);
    }
  }

  /** `update(type_id, t)`: every row with that id is rewritten as `t` with
      the id kept; the others stay in place. The entry is answered only when
      some row matched. */
  function Update(rows: seq<TypeEntry>, id: int, t: TypeEntry): (r: (seq<TypeEntry>, Option<TypeEntry>))
    ensures |r.0| == |rows|
    ensures forall i :: 0 <= i < |rows| ==> r.0[i] == (if rows[i].id == id then t.(id := id) else rows[i])
    ensures r.1.Some? ==> r.1.value == t.(id := id)
    ensures r.1.Some? <==> exists i :: 0 <= i < |rows| && rows[i].id == id
  {
    var written := t.(id := id);
    var out := ReplaceWhere(rows, (x: TypeEntry) => x.id == id, written);
    if FindFirst(rows, (x: TypeEntry) => x.id == id).Some? then (out, Some(written)) else (out, None)
  }

  /** After a successful update the id leads to the rewritten entry, and an
      update of an absent id leaves the file as it was. */
  lemma UpdateThenGet(rows: seq<TypeEntry>, id: int, t: TypeEntry)
    ensures Update(rows, id, t).1.Some? ==> GetById(Update(rows, id, t).0, id) == Some(t.(id := id))
    ensures Update(rows, id, t).1.None? ==> Update(rows, id, t).0 == rows
  {
    var out := Update(rows, id, t).0;
    if Update(rows, id, t).1.Some? {
      var g := GetById(out, id);
      assert exists i :: 0 <= i < |out| && out[i].id == id;
      assert g.Some?;
    } else {
      assert forall i :: 0 <= i < |rows| ==> out[i] == rows[i];
    }
  }

  /** `delete(type_id)`: drops every row with that id; `true` exactly when
      something was dropped, and the file is untouched otherwise. */
  function Delete(rows: seq<TypeEntry>, id: int): (r: (seq<TypeEntry>, bool))
    ensures r.1 <==> exists i :: 0 <= i < |rows| && rows[i].id == id
    ensures !r.1 ==> r.0 == rows
    ensures forall i :: 0 <= i < |r.0| ==> r.0[i] in rows && r.0[i].id != id
    ensures forall i :: 0 <= i < |rows| && rows[i].id != id ==> rows[i] in r.0
  {
    var p := (x: TypeEntry) => x.id != id;
    var kept := Filter(rows, p);
    FilterLengthIff(rows, p);
    if |kept| == |rows| then (rows, false) else (kept, true)
  }

  /** The rows a delete leaves are the rows of other ids, in file order. */
  lemma DeleteKeepsOthers(rows: seq<TypeEntry>, id: int)
    ensures Delete(rows, id).0 == Filter(rows, (x: TypeEntry) => x.id != id)
  {
    var p := (x: TypeEntry) => x.id != id;
    FilterLengthIff(rows, p);
    if !Delete(rows, id).1 {
      FilterAll(rows, p);
    }
  }

  /** A delete keeps file order and writes each surviving row once: an empty
      file stays empty, and one more row survives, at the end, exactly when
      its id differs. */
  lemma DeleteAppend(rows: seq<TypeEntry>, x: TypeEntry, id: int)
    ensures Delete([], id).0 == []
    ensures Delete(rows + [x], id).0 == Delete(rows, id).0 + (if x.id != id then [x] else [])
  {
    DeleteKeepsOthers(rows, id);
    DeleteKeepsOthers(rows + [x], id);
    FilterSnoc(rows, x, (y: TypeEntry) => y.id != id);
  }

  /** After a delete the id is gone, and deleting again reports nothing removed. */
  lemma DeleteThenGet(rows: seq<TypeEntry>, id: int)
    ensures GetById(Delete(rows, id).0, id) == None
    ensures !Delete(Delete(rows, id).0, id).1
  {
  }
}
